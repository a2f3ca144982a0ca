/**
  The run record written after a generation (`salvar_json`) and the reading
  of a record's slides back into the session's slide -> script dictionary
  (`exibir_dados_json`). The JSON text in between is not modelled: a record is
  read back as the same nested values it was written from.
 */
module SessionStore {
  import opened Wrappers
  import opened Text
  import opened Dicts

  /** Topic stored for a slide number that has no extracted page. */
  const TopicNotFound := "Tema não encontrado"

  /** The run's metadata, written next to the slides. */
  datatype Meta = Meta(sourceName: string, totalPages: int, startPage: int, endPage: int, totalMinutes: int)

  /**
    One member of the `"slides"` object: its label and the `"tema"` and
    `"roteiro"` members of its value. Both are present in what the program
    writes; in a file read back either may be missing.
   */
  datatype SlideEntry = SlideEntry(name: string, topic: Option<string>, script: Option<string>)

  /** The saved document: creation time, metadata and the slides in insertion order. */
  datatype RunRecord = RunRecord(createdAt: string, meta: Meta, slides: seq<SlideEntry>)

  // ---------------------------------------------------------------------------
  // Saving
  // ---------------------------------------------------------------------------

  /** The label a slide is saved under: `f"Slide {n}"`. */
  function Label(n: int): string {
    "Slide " + IntToString(n)
  }

  /**
    The topic of slide `n`: the first line of its page with surrounding
    whitespace removed, or the sentinel when the slide has no page among the
    extracted ones.
   */
  function Topic(texts: seq<string>, pagIni: int, n: int): (t: string)
    ensures !(0 <= n - pagIni < |texts|) ==> t == TopicNotFound
    ensures IsStripped(t)
    ensures '\n' !in t
  {
    var index := n - pagIni;
    var line := if 0 <= index < |texts| then FirstLine(texts[index]) else TopicNotFound;
    StripKeepsCharsOut(line, '\n');
    StripStripped(TopicNotFound);
    Strip(line)
  }

  /** A slide with a page has as topic its page's first line, trimmed of surrounding whitespace. */
  lemma TopicOfPage(texts: seq<string>, pagIni: int, n: int)
    requires 0 <= n - pagIni < |texts|
    ensures IsTrimmingOf(FirstLine(texts[n - pagIni]), Topic(texts, pagIni, n))
  {
    StripTrims(FirstLine(texts[n - pagIni]));
  }

  /** The topic of every slide number, for the pages extracted from `pagIni` on. */
  function TopicOf(texts: seq<string>, pagIni: int): int -> string {
    n => Topic(texts, pagIni, n)
  }

  /**
    The `"slides"` object built from the generated scripts, in their order:
    slide `n`'s script and topic under `"Slide n"`. The topics are a parameter,
    as nothing about the object's layout depends on how they are found.
   */
  function SaveSlides(scripts: seq<(int, string)>, topicOf: int -> string): (r: seq<SlideEntry>)
    ensures |r| == |scripts|
    ensures forall i :: 0 <= i < |r| ==>
      r[i] == SlideEntry(Label(scripts[i].0), Some(topicOf(scripts[i].0)), Some(scripts[i].1))
  {
    seq(|scripts|, i requires 0 <= i < |scripts| => SlideEntry(Label(scripts[i].0), Some(topicOf(scripts[i].0)), Some(scripts[i].1)))
  }

  /** Distinct slide numbers give the saved object distinct member names. */
  lemma SavedLabelsDistinct(scripts: seq<(int, string)>, topicOf: int -> string)
    requires DistinctKeys(scripts)
    ensures DistinctLabels(SaveSlides(scripts, topicOf))
  {
    var r := SaveSlides(scripts, topicOf);
    forall i, j | 0 <= i < j < |r|
      ensures r[i].name != r[j].name
    {
      if r[i].name == r[j].name {
        LabelInjective(scripts[i].0, scripts[j].0);
      }
    }
  }

  /**
    `salvar_json`'s document: the creation time, the metadata, then one member
    per generated script holding that script and the topic of the slide's page.
   */
  function SaveRecord(createdAt: string, meta: Meta, scripts: seq<(int, string)>, texts: seq<string>, pagIni: int): (r: RunRecord)
    ensures r.createdAt == createdAt && r.meta == meta
    ensures |r.slides| == |scripts|
    ensures forall i :: 0 <= i < |scripts| ==>
      && r.slides[i].name == Label(scripts[i].0)
      && r.slides[i].script == Some(scripts[i].1)
      && r.slides[i].topic == Some(Topic(texts, pagIni, scripts[i].0))
  {
    RunRecord(createdAt, meta, SaveSlides(scripts, TopicOf(texts, pagIni)))
  }

  predicate DistinctLabels(entries: seq<SlideEntry>) {
    forall i, j :: 0 <= i < j < |entries| ==> entries[i].name != entries[j].name
  }

  lemma NatToStringInjective(a: nat, b: nat)
    requires NatToString(a) == NatToString(b)
    ensures a == b
  {
    DigitsToNatOfNatToString(a);
    DigitsToNatOfNatToString(b);
  }

  /** Different slide numbers are saved under different labels. */
  lemma LabelInjective(a: int, b: int)
    requires Label(a) == Label(b)
    ensures a == b
  {
    var sa, sb := IntToString(a), IntToString(b);
    assert sa == Label(a)[6..] && sb == Label(b)[6..];
    if a < 0 && b < 0 {
      assert sa[1..] == NatToString(-a) && sb[1..] == NatToString(-b);
      NatToStringInjective(-a, -b);
    } else if a >= 0 && b >= 0 {
      NatToStringInjective(a, b);
    }
  }

  // ---------------------------------------------------------------------------
  // Loading
  // ---------------------------------------------------------------------------

  /** A loaded dictionary key: the number found in the label, or the label itself. */
  datatype SlideKey = Num(n: nat) | Raw(text: string)

  /**
    The key a label is read back as: the value of its first run of digits,
    or the unchanged label when it holds no digit.
   */
  function ParseLabel(name: string): (k: SlideKey)
    ensures k.Raw? <==> forall j :: 0 <= j < |name| ==> !IsDigit(name[j])
    ensures k.Raw? ==> k.text == name
  {
    match FirstDigitRun(name)
    case None => Raw(name)
    case Some(digits) => Num(DigitsToNat(digits))
  }

  /** A label with digits reads back as the value of its first run of digits. */
  lemma ParseLabelValue(name: string)
    ensures ParseLabel(name).Num? ==>
      exists i, run :: IsFirstDigitRun(name, i, run) && ParseLabel(name).n == DigitsToNat(run)
  {
    FirstDigitRunIsFirst(name);
  }

  /**
    A saved label reads back as the slide's number; a negative number would
    lose its sign, as the minus is not part of the digit run.
   */
  lemma ParseSavedLabel(n: int)
    ensures ParseLabel(Label(n)) == Num(if n < 0 then -n else n)
  {
    var m: nat := if n < 0 then -n else n;
    var digits := NatToString(m);
    var prefix := if n < 0 then "Slide -" else "Slide ";
    assert NoDigits(prefix) by {
      assert forall j :: 0 <= j < |prefix| ==> prefix[j] in "Slide -";
    }
    assert Label(n) == prefix + digits by {
      if n < 0 {
        assert IntToString(n) == "-" + digits;
        assert "Slide " + ("-" + digits) == ("Slide " + "-") + digits;
      }
    }
    FirstDigitRunAfterText(prefix, digits);
    DigitsToNatOfNatToString(m);
  }

  /**
    What reading a saved file gives back: its creation time and its `"slides"`
    object, when present. That object's members are listed in order; JSON
    decoding has already merged repeated member names, so the names are taken
    to be distinct.
   */
  datatype LoadedDocument = LoadedDocument(createdAt: Option<string>, slides: Option<seq<SlideEntry>>)

  /** The document a saved record reads back as. */
  function Stored(rec: RunRecord): LoadedDocument {
    LoadedDocument(Some(rec.createdAt), Some(rec.slides))
  }

  /** A document without `"slides"`, or a slide without `"roteiro"` (the `KeyError`s). */
  datatype LoadError = MissingSlides | MissingScript(slide: string)

  /**
    The session dictionary read from the slides in order: each label's key is
    assigned its script, a later slide with the same key overwriting an
    earlier one in place. A slide without a script makes the whole load fail.
   */
  function LoadEntries(entries: seq<SlideEntry>): (r: Result<seq<(SlideKey, string)>, LoadError>)
    ensures r.Failure? <==> exists i :: 0 <= i < |entries| && entries[i].script.None?
    ensures r.Success? ==> DistinctKeys(r.value)
    ensures r.Success? ==> Keys(r.value) == ParsedKeys(entries)
  {
    if |entries| == 0 then
      Success([])
    else
      var front := entries[..|entries| - 1];
      var last := entries[|entries| - 1];
      ParsedKeysSnoc(entries);
      MissingScriptSnoc(entries);
      match LoadEntries(front)
      case Failure(e) => Failure(e)
      case Success(d) =>
        if last.script.None? then
          Failure(MissingScript(last.name))
        else
          Success(Put(d, ParseLabel(last.name), last.script.value))
  }

  /** The keys the slides' labels read back as. */
  function ParsedKeys(entries: seq<SlideEntry>): set<SlideKey> {
    set i | 0 <= i < |entries| :: ParseLabel(entries[i].name)
  }

  /** The keys of the slides are those of all but the last, plus the last one's. */
  lemma ParsedKeysSnoc(entries: seq<SlideEntry>)
    requires |entries| > 0
    ensures var front, last := entries[..|entries| - 1], entries[|entries| - 1];
      ParsedKeys(entries) == ParsedKeys(front) + {ParseLabel(last.name)}
  {
    var front, last := entries[..|entries| - 1], entries[|entries| - 1];
    assert forall i :: 0 <= i < |front| ==> front[i] == entries[i];
    forall k | k in ParsedKeys(entries)
      ensures k in ParsedKeys(front) + {ParseLabel(last.name)}
    {
      var i :| 0 <= i < |entries| && k == ParseLabel(entries[i].name);
      if i < |front| {
        assert k == ParseLabel(front[i].name);
      }
    }
    forall k | k in ParsedKeys(front)
      ensures k in ParsedKeys(entries)
    {
      var i :| 0 <= i < |front| && k == ParseLabel(front[i].name);
      assert k == ParseLabel(entries[i].name);
    }
  }

  /** Some slide lacks a script exactly when one of all but the last does, or the last does. */
  lemma MissingScriptSnoc(entries: seq<SlideEntry>)
    requires |entries| > 0
    ensures var front, last := entries[..|entries| - 1], entries[|entries| - 1];
      (exists i :: 0 <= i < |entries| && entries[i].script.None?)
      <==> (exists i :: 0 <= i < |front| && front[i].script.None?) || last.script.None?
  {
    var front := entries[..|entries| - 1];
    assert forall i :: 0 <= i < |front| ==> front[i] == entries[i];
  }

  /** `exibir_dados_json`'s reading of a document into the session dictionary. */
  function Load(doc: LoadedDocument): (r: Result<seq<(SlideKey, string)>, LoadError>)
    ensures doc.slides.None? ==> r == Failure(MissingSlides)
  {
    match doc.slides
    case None => Failure(MissingSlides)
    case Some(entries) => LoadEntries(entries)
  }

  /** The dictionary of scripts keyed by slide number, as it reads back from a file. */
  function AsLoaded(scripts: seq<(int, string)>): (r: seq<(SlideKey, string)>)
    requires forall i :: 0 <= i < |scripts| ==> scripts[i].0 >= 0
    ensures |r| == |scripts|
    ensures forall i :: 0 <= i < |r| ==> r[i].0 == Num(scripts[i].0) && r[i].1 == scripts[i].1
  {
    seq(|scripts|, i requires 0 <= i < |scripts| => (Num(scripts[i].0), scripts[i].1))
  }

  /** The assignment each slide makes: its label's key, its script. */
  function SlidePairs(entries: seq<SlideEntry>): (ps: seq<(SlideKey, string)>)
    requires forall i :: 0 <= i < |entries| ==> entries[i].script.Some?
    ensures |ps| == |entries|
    ensures forall i :: 0 <= i < |entries| ==> ps[i] == (ParseLabel(entries[i].name), entries[i].script.value)
  {
    seq(|entries|, i requires 0 <= i < |entries| => (ParseLabel(entries[i].name), entries[i].script.value))
  }

  /**
    Loading performs the slides' assignments `d[key] = script` in order on an
    empty dictionary. So a key shared by several slides keeps the place of the
    first of them (`Dicts.FromPairsKeepsFirstPlace`) and the script of the
    last (`Dicts.FromPairsKeepsLast`).
   */
  lemma {:induction false} LoadEntriesFromPairs(entries: seq<SlideEntry>)
    requires forall i :: 0 <= i < |entries| ==> entries[i].script.Some?
    ensures LoadEntries(entries) == Success(FromPairs(SlidePairs(entries)))
  {
    if |entries| > 0 {
      var front := entries[..|entries| - 1];
      assert forall i :: 0 <= i < |front| ==> front[i] == entries[i];
      LoadEntriesFromPairs(front);
      var ps := SlidePairs(entries);
      assert ps[..|ps| - 1] == SlidePairs(front);
    }
  }

  /**
    When every slide has a script and no two labels read back as the same key,
    loading keeps every slide, in order, under its parsed key.
   */
  lemma {:induction false} LoadEntriesDistinct(entries: seq<SlideEntry>)
    requires forall i :: 0 <= i < |entries| ==> entries[i].script.Some?
    requires forall i, j :: 0 <= i < j < |entries| ==> ParseLabel(entries[i].name) != ParseLabel(entries[j].name)
    ensures LoadEntries(entries).Success?
    ensures |LoadEntries(entries).value| == |entries|
    ensures forall i :: 0 <= i < |entries| ==>
      && LoadEntries(entries).value[i].0 == ParseLabel(entries[i].name)
      && LoadEntries(entries).value[i].1 == entries[i].script.value
  {
    if |entries| > 0 {
      var front := entries[..|entries| - 1];
      var last := entries[|entries| - 1];
      assert forall i :: 0 <= i < |front| ==> front[i] == entries[i];
      LoadEntriesDistinct(front);
      var d := LoadEntries(front).value;
      var k := ParseLabel(last.name);
      assert k !in ParsedKeys(front);
      var r := Put(d, k, last.script.value);
      assert r == d + [(k, last.script.value)];
      assert LoadEntries(entries) == Success(r);
      forall i | 0 <= i < |entries|
        ensures r[i].0 == ParseLabel(entries[i].name) && r[i].1 == entries[i].script.value
      {
        if i < |front| {
          assert r[i] == d[i];
          assert d[i].0 == ParseLabel(front[i].name) && d[i].1 == front[i].script.value;
          assert front[i] == entries[i];
        } else {
          assert i == |d|;
          assert r[i] == (k, last.script.value);
        }
      }
    }
  }

  /**
    Saving a run and reading the file back gives the session dictionary it was
    saved from: the same slide numbers, in the same order, with the same
    scripts. Slide numbers are never negative, since the first page is at least 1.
   */
  lemma SaveLoadRoundTrip(createdAt: string, meta: Meta, scripts: seq<(int, string)>, topicOf: int -> string)
    requires DistinctKeys(scripts)
    requires forall i :: 0 <= i < |scripts| ==> scripts[i].0 >= 0
    ensures Load(Stored(RunRecord(createdAt, meta, SaveSlides(scripts, topicOf)))) == Success(AsLoaded(scripts))
  {
    var entries := SaveSlides(scripts, topicOf);
    forall i | 0 <= i < |entries|
      ensures ParseLabel(entries[i].name) == Num(scripts[i].0)
    {
      ParseSavedLabel(scripts[i].0);
    }
    LoadEntriesDistinct(entries);
    var loaded := LoadEntries(entries).value;
    assert loaded == AsLoaded(scripts);
  }
}
