/**
 Which records of an NFC message end up in the three labels
 (examples/annotatedurl/annotatedurl.cpp:112-157).
 */
module AnnotatedUrl {
  import opened Wrappers

  /** `language` and `country` are opaque; equal locales agree on both. */
  datatype Locale = Locale(language: nat, country: nat)

  const ENGLISH: nat := 31

  datatype NdefRecord =
    | TextRecord(locale: Locale, text: string)
    | UriRecord(uri: string)
    | MimeRecord(mimeType: string, payload: seq<nat>)
    | OtherRecord

  datatype Match = MatchedNone | MatchedFirst | MatchedEnglish | MatchedLanguage | MatchedLanguageAndCountry

  function Level(m: Match): nat {
    match m
    case MatchedNone => 0
    case MatchedFirst => 1
    case MatchedEnglish => 2
    case MatchedLanguage => 3
    case MatchedLanguageAndCountry => 4
  }

  /** How well a text suits the reader, on its own. */
  function Rank(own: Locale, r: NdefRecord): nat {
    if !r.TextRecord? then 0
    else if r.locale == own then 4
    else if r.locale.language == own.language then 3
    else if r.locale.language == ENGLISH then 2
    else 1
  }

  /** `k` is the first text of highest rank. */
  ghost predicate BestText(own: Locale, message: seq<NdefRecord>, k: nat) {
    && k < |message| && message[k].TextRecord?
    && (forall j :: 0 <= j < k ==> Rank(own, message[j]) < Rank(own, message[k]))
    && forall j :: k < j < |message| ==> Rank(own, message[j]) <= Rank(own, message[k])
  }

  ghost predicate BestTitle(own: Locale, message: seq<NdefRecord>, title: string) {
    (title == "" && forall j :: 0 <= j < |message| ==> !message[j].TextRecord?)
    || exists k: nat :: BestText(own, message, k) && title == message[k].text
  }

  /**
   The title is the first text in the reader's own locale; without one the first in his
   language, then the first in English, then the first of all.
   */
  ghost predicate TitleOf(own: Locale, message: seq<NdefRecord>, title: string) {
    if exists j :: 0 <= j < |message| && message[j].TextRecord? && message[j].locale == own then
      exists k :: 0 <= k < |message| && message[k].TextRecord? && message[k].locale == own && title == message[k].text
                  && forall j :: 0 <= j < k && message[j].TextRecord? ==> message[j].locale != own
    else if exists j :: 0 <= j < |message| && message[j].TextRecord? && message[j].locale.language == own.language then
      exists k :: 0 <= k < |message| && message[k].TextRecord? && message[k].locale.language == own.language
                  && title == message[k].text
                  && forall j :: 0 <= j < k && message[j].TextRecord? ==> message[j].locale.language != own.language
    else if exists j :: 0 <= j < |message| && message[j].TextRecord? && message[j].locale.language == ENGLISH then
      exists k :: 0 <= k < |message| && message[k].TextRecord? && message[k].locale.language == ENGLISH
                  && title == message[k].text
                  && forall j :: 0 <= j < k && message[j].TextRecord? ==> message[j].locale.language != ENGLISH
    else if exists j :: 0 <= j < |message| && message[j].TextRecord? then
      exists k :: 0 <= k < |message| && message[k].TextRecord? && title == message[k].text
                  && forall j :: 0 <= j < k ==> !message[j].TextRecord?
    else title == ""
  }

  /** The first text of highest rank is that title. */
  lemma BestIsTitle(own: Locale, message: seq<NdefRecord>, title: string)
    requires BestTitle(own, message, title)
    ensures TitleOf(own, message, title)
  {
    if k: nat :| BestText(own, message, k) && title == message[k].text {
      forall j | 0 <= j < |message| && message[j].TextRecord?
        ensures message[j].locale == own ==> message[k].locale == own && k <= j
        ensures Rank(own, message[k]) <= 3 && message[j].locale.language == own.language ==>
                  message[k].locale.language == own.language && k <= j
        ensures Rank(own, message[k]) <= 2 && message[j].locale.language == ENGLISH ==>
                  message[k].locale.language == ENGLISH && k <= j
        ensures Rank(own, message[k]) <= 1 ==> k <= j
      {
        assert Rank(own, message[j]) <= Rank(own, message[k]);
        assert j < k ==> Rank(own, message[j]) < Rank(own, message[k]);
      }
    }
  }

  /** `k` is the last URI record, or the last image. */
  ghost predicate LastUri(message: seq<NdefRecord>, k: nat) {
    k < |message| && message[k].UriRecord? && forall j :: k < j < |message| ==> !message[j].UriRecord?
  }

  ghost predicate LastImage(message: seq<NdefRecord>, k: nat) {
    && k < |message| && message[k].MimeRecord? && "image/" <= message[k].mimeType
    && forall j :: k < j < |message| && message[j].MimeRecord? ==> !("image/" <= message[j].mimeType)
  }

  ghost predicate UrlOf(message: seq<NdefRecord>, url: string) {
    (url == "" && forall j :: 0 <= j < |message| ==> !message[j].UriRecord?)
    || exists k: nat :: LastUri(message, k) && url == message[k].uri
  }

  ghost predicate ImageOf(message: seq<NdefRecord>, image: Option<seq<nat>>) {
    (image == None && forall j :: 0 <= j < |message| && message[j].MimeRecord? ==> !("image/" <= message[j].mimeType))
    || exists k: nat :: LastImage(message, k) && image == Some(message[k].payload)
  }

  /** The best rank so far. */
  ghost predicate BestLevel(own: Locale, message: seq<NdefRecord>, m: Match) {
    && (forall j :: 0 <= j < |message| ==> Rank(own, message[j]) <= Level(m))
    && (m != MatchedNone ==> exists j :: 0 <= j < |message| && Rank(own, message[j]) == Level(m))
  }

  lemma LevelStep(own: Locale, message: seq<NdefRecord>, r: NdefRecord, m: Match, next: Match)
    requires BestLevel(own, message, m)
    requires Level(next) == if Rank(own, r) > Level(m) then Rank(own, r) else Level(m)
    ensures BestLevel(own, message + [r], next)
  {
    var all := message + [r];
    if Rank(own, r) > Level(m) {
      assert Rank(own, all[|message|]) == Level(next);
    } else if m != MatchedNone {
      var j :| 0 <= j < |message| && Rank(own, message[j]) == Level(m);
      assert Rank(own, all[j]) == Level(next);
    }
  }

  /** A record of higher rank has the title. */
  lemma TitleReplaced(own: Locale, message: seq<NdefRecord>, r: NdefRecord, m: Match)
    requires BestLevel(own, message, m) && Rank(own, r) > Level(m)
    ensures BestText(own, message + [r], |message|)
  {
  }

  /** Any other record leaves it. */
  lemma TitleKept(own: Locale, message: seq<NdefRecord>, r: NdefRecord, m: Match, k: nat)
    requires BestText(own, message, k) && BestLevel(own, message, m) && Rank(own, r) <= Level(m)
    ensures BestText(own, message + [r], k)
  {
    var all := message + [r];
    assert m != MatchedNone;
    var j :| 0 <= j < |message| && Rank(own, message[j]) == Level(m);
    assert Rank(own, message[j]) <= Rank(own, message[k]);
    assert forall i :: 0 <= i < |message| ==> all[i] == message[i];
  }

  lemma TitleStep(own: Locale, message: seq<NdefRecord>, r: NdefRecord, m: Match, title: string, after: string)
    requires BestTitle(own, message, title) && BestLevel(own, message, m)
    requires after == if r.TextRecord? && Rank(own, r) > Level(m) then r.text else title
    ensures BestTitle(own, message + [r], after)
  {
    if Rank(own, r) > Level(m) {
      TitleReplaced(own, message, r, m);
    } else if k: nat :| BestText(own, message, k) && title == message[k].text {
      TitleKept(own, message, r, m, k);
    }
  }

  lemma UrlStep(message: seq<NdefRecord>, r: NdefRecord, url: string)
    requires UrlOf(message, url)
    ensures UrlOf(message + [r], if r.UriRecord? then r.uri else url)
  {
    var all := message + [r];
    if r.UriRecord? {
      assert LastUri(all, |message|);
    } else if k: nat :| LastUri(message, k) && url == message[k].uri {
      assert LastUri(all, k);
    }
  }

  lemma ImageStep(message: seq<NdefRecord>, r: NdefRecord, image: Option<seq<nat>>)
    requires ImageOf(message, image)
    ensures ImageOf(message + [r], if r.MimeRecord? && "image/" <= r.mimeType then Some(r.payload) else image)
  {
    var all := message + [r];
    if r.MimeRecord? && "image/" <= r.mimeType {
      assert LastImage(all, |message|);
    } else if k: nat :| LastImage(message, k) && image == Some(message[k].payload) {
      assert LastImage(all, k);
    }
  }

  /** A title is determined by the message: there is only one first text of its kind. */
  lemma TitleUnique(own: Locale, message: seq<NdefRecord>, a: string, b: string)
    requires TitleOf(own, message, a) && TitleOf(own, message, b)
    ensures a == b
  {
  }

  class Labels {
    var title: string
    var url: string
    var image: Option<seq<nat>>

    constructor ()
      ensures title == "" && url == "" && image == None
    {
      title, url, image := "", "", None;
    }

    /** The chain of comparisons for one text record. */
    method ConsiderText(record: NdefRecord, own: Locale, bestMatch: Match) returns (next: Match)
      requires record.TextRecord?
      modifies this`title
      ensures Level(next) == if Rank(own, record) > Level(bestMatch) then Rank(own, record) else Level(bestMatch)
      ensures title == if Rank(own, record) > Level(bestMatch) then record.text else old(title)
      ensures
        next == if bestMatch == MatchedLanguageAndCountry || record.locale == own then MatchedLanguageAndCountry
                else if bestMatch == MatchedLanguage || record.locale.language == own.language then MatchedLanguage
                else if bestMatch == MatchedEnglish || record.locale.language == ENGLISH then MatchedEnglish
                else MatchedFirst
      ensures title == if next == bestMatch then old(title) else record.text
    {
      var locale := record.locale;
      next := bestMatch;
      if bestMatch == MatchedLanguageAndCountry {
        // nothing can be better
      } else if Level(bestMatch) <= Level(MatchedLanguage) && locale == own {
        title := record.text;
        next := MatchedLanguageAndCountry;
      } else if Level(bestMatch) <= Level(MatchedEnglish) && locale.language == own.language {
        title := record.text;
        next := MatchedLanguage;
      } else if Level(bestMatch) <= Level(MatchedFirst) && locale.language == ENGLISH {
        title := record.text;
        next := MatchedEnglish;
      } else if bestMatch == MatchedNone {
        title := record.text;
        next := MatchedFirst;
      }
    }

    /** `displayNdefMessage` for a reader whose default locale is `own`. */
    method DisplayNdefMessage(message: seq<NdefRecord>, own: Locale)
      modifies this
      ensures TitleOf(own, message, title) && UrlOf(message, url) && ImageOf(message, image)
    {
      var bestMatch := MatchedNone;
      title, url, image := "", "", None;
      for i := 0 to |message|
        invariant BestTitle(own, message[..i], title) && BestLevel(own, message[..i], bestMatch)
        invariant UrlOf(message[..i], url) && ImageOf(message[..i], image)
      {
        var record := message[i];
        ghost var before, match0 := title, bestMatch;
        assert message[..i + 1] == message[..i] + [record];
        UrlStep(message[..i], record, url);
        ImageStep(message[..i], record, image);
        if record.TextRecord? {
          bestMatch := ConsiderText(record, own, bestMatch);
        } else if record.UriRecord? {
          url := record.uri;
        } else if record.MimeRecord? && "image/" <= record.mimeType {
          image := Some(record.payload);
        }
        LevelStep(own, message[..i], record, match0, bestMatch);
        TitleStep(own, message[..i], record, match0, before, title);
      }
      assert message[..|message|] == message;
      BestIsTitle(own, message, title);
    }
  }
}
