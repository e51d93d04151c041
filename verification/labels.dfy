/** The label codec of `src/shared/lib/labels.ts`: a `;`-delimited string
    to a list of labels and back. */
module Labels {
  import opened JsString
  import opened AccountTypes

  /** A label the codec can produce: non-empty, trimmed, `;`-free. */
  predicate WellFormed(l: Label) {
    l.text != "" && IsTrimmed(l.text) && ';' !in l.text
  }

  predicate AllWellFormed(ls: seq<Label>) {
    forall i :: 0 <= i < |ls| ==> WellFormed(ls[i])
  }

  /** One segment after `trim` and the non-empty filter: none or one label. */
  function CleanSegment(segment: string): (ls: seq<Label>)
    ensures |ls| <= 1
    ensures forall i :: 0 <= i < |ls| ==> ls[i].text != "" && IsTrimmed(ls[i].text)
  {
    var t := Trim(segment);
    if t == "" then [] else [Label(t)]
  }

  /** The pipeline after `split`: trim every segment, drop the empty ones
      and wrap the rest, keeping order and duplicates. */
  function Clean(segments: seq<string>): (ls: seq<Label>)
    ensures |ls| <= |segments|
    ensures forall i :: 0 <= i < |ls| ==> ls[i].text != "" && IsTrimmed(ls[i].text)
    decreases |segments|
  {
    if segments == [] then [] else CleanSegment(segments[0]) + Clean(segments[1..])
  }

  /** Cleaning `;`-free segments yields codec-shaped labels. */
  lemma {:induction false} CleanWellFormed(segments: seq<string>)
    requires forall j :: 0 <= j < |segments| ==> ';' !in segments[j]
    ensures AllWellFormed(Clean(segments))
    decreases |segments|
  {
    if segments != [] {
      TrimAddsNothing(segments[0], ';');
      CleanWellFormed(segments[1..]);
    }
  }

  /** `parseLabels`: blank input gives no labels; otherwise split on `;`,
      trim, drop empty segments and wrap. */
  function ParseLabels(s: string): (ls: seq<Label>)
    ensures AllWellFormed(ls)
    ensures AllWhitespace(s) ==> ls == []
    ensures |ls| <= Count(s, ';') + 1
  {
    if Trim(s) == "" then []
    else
      CleanWellFormed(Split(s, ';'));
      Clean(Split(s, ';'))
  }

  function Texts(ls: seq<Label>): (ts: seq<string>)
    ensures |ts| == |ls|
  {
    seq(|ls|, i requires 0 <= i < |ls| => ls[i].text)
  }

  /** `formatLabels`: the texts joined with `"; "`. */
  function FormatLabels(ls: seq<Label>): (s: string)
    ensures ls == [] ==> s == ""
    ensures |ls| == 1 ==> s == ls[0].text
  {
    Join(Texts(ls), "; ")
  }

  /** The blank-input guard of `parseLabels` is redundant: the pipeline
      alone already yields no labels on whitespace-only input. */
  lemma {:induction false} ParseGuardRedundant(s: string)
    ensures ParseLabels(s) == Clean(Split(s, ';'))
  {
    if Trim(s) == "" {
      assert !IsWhitespace(';');
      SplitWithoutSeparator(s, ';');
      assert Clean([s]) == [] + Clean([]);
    }
  }

  /** The labels are exactly the trimmed, non-empty `;`-segments of the
      input, in input order, duplicates kept: for any `;`-free segments,
      parsing their `;`-join gives the cleaned segments. */
  lemma {:induction false} ParseSegments(segments: seq<string>)
    requires segments != []
    requires forall j :: 0 <= j < |segments| ==> ';' !in segments[j]
    ensures ParseLabels(Join(segments, [';'])) == Clean(segments)
  {
    ParseGuardRedundant(Join(segments, [';']));
    SplitJoin(segments, ';');
  }

  /** One segment cleans to the label of its trimmed text, or to nothing
      when that text is empty. */
  lemma CleanOne(segment: string)
    ensures Clean([segment]) == if Trim(segment) == "" then [] else [Label(Trim(segment))]
  {
    assert Clean([segment]) == CleanSegment(segment) + Clean([]);
  }

  /** Cleaning works segment by segment: with `CleanOne`, the labels of a
      list of segments are the labels of each segment, in order. */
  lemma {:induction false} CleanAppend(a: seq<string>, b: seq<string>)
    ensures Clean(a + b) == Clean(a) + Clean(b)
    decreases |a|
  {
    if a == [] {
      assert a + b == b;
    } else {
      assert (a + b)[1..] == a[1..] + b;
      CleanAppend(a[1..], b);
    }
  }

  /** A space in front of the first segment disappears in the trim. */
  lemma {:induction false} CleanSpaceFirst(segments: seq<string>)
    requires segments != []
    ensures Clean(PrependToFirst(' ', segments)) == Clean(segments)
  {
    TrimSkipsLeadingSpace(segments[0]);
  }

  /** Formatting two or more labels puts the first text, a `;` and a
      space-prefixed remainder in a row. */
  lemma {:induction false} SplitFormatCons(ls: seq<Label>)
    requires |ls| >= 2
    requires ';' !in ls[0].text
    ensures Split(FormatLabels(ls), ';')
         == [ls[0].text] + PrependToFirst(' ', Split(FormatLabels(ls[1..]), ';'))
  {
    var t, rest := ls[0].text, FormatLabels(ls[1..]);
    assert Texts(ls)[1..] == Texts(ls[1..]);
    assert FormatLabels(ls) == t + [';'] + ([' '] + rest);
    SplitAtSeparator(t, [' '] + rest, ';');
    SplitWithoutSeparator(t, ';');
    assert ([' '] + rest)[1..] == rest;
  }

  /** The inductive step of `CleanSplitFormat`: if the tail of a formatted
      list splits and cleans back to itself, so does the whole list. */
  lemma CleanSplitFormatStep(ls: seq<Label>)
    requires |ls| >= 2
    requires WellFormed(ls[0])
    requires Clean(Split(FormatLabels(ls[1..]), ';')) == ls[1..]
    ensures Clean(Split(FormatLabels(ls), ';')) == ls
  {
    var t := ls[0].text;
    var r := Split(FormatLabels(ls[1..]), ';');
    TrimOfTrimmed(t);
    calc {
      Clean(Split(FormatLabels(ls), ';'));
      { SplitFormatCons(ls); }
      Clean([t] + PrependToFirst(' ', r));
      { CleanAppend([t], PrependToFirst(' ', r)); }
      Clean([t]) + Clean(PrependToFirst(' ', r));
      { CleanSpaceFirst(r); }
      Clean([t]) + ls[1..];
      { CleanOne(t); }
      [ls[0]] + ls[1..];
    }
    assert [ls[0]] + ls[1..] == ls;
  }

  /** Splitting and cleaning a formatted non-empty list recovers it. */
  lemma {:induction false} CleanSplitFormat(ls: seq<Label>)
    requires ls != []
    requires AllWellFormed(ls)
    ensures Clean(Split(FormatLabels(ls), ';')) == ls
    decreases |ls|
  {
    if |ls| == 1 {
      SplitWithoutSeparator(ls[0].text, ';');
      CleanOne(ls[0].text);
      TrimOfTrimmed(ls[0].text);
    } else {
      CleanSplitFormat(ls[1..]);
      CleanSplitFormatStep(ls);
    }
  }

  /** Round trip: parsing the formatted form of codec-shaped labels gives
      the same labels back. */
  lemma {:induction false} RoundTrip(ls: seq<Label>)
    requires AllWellFormed(ls)
    ensures ParseLabels(FormatLabels(ls)) == ls
  {
    if ls != [] {
      ParseGuardRedundant(FormatLabels(ls));
      CleanSplitFormat(ls);
    }
  }

  /** Stability: formatting and re-parsing parsed labels changes nothing. */
  lemma {:induction false} ParseFormatParse(s: string)
    ensures ParseLabels(FormatLabels(ParseLabels(s))) == ParseLabels(s)
  {
    RoundTrip(ParseLabels(s));
  }

  /** `n` labels whose texts hold no `;` format with exactly `n - 1` separators. */
  lemma {:induction false} FormatSeparators(ls: seq<Label>)
    requires ls != []
    requires forall i :: 0 <= i < |ls| ==> ';' !in ls[i].text
    ensures Count(FormatLabels(ls), ';') == |ls| - 1
    decreases |ls|
  {
    if |ls| > 1 {
      var t := ls[0].text;
      var rest := FormatLabels(ls[1..]);
      assert Texts(ls)[1..] == Texts(ls[1..]);
      assert FormatLabels(ls) == t + ("; " + rest);
      CountAppend(t, "; " + rest, ';');
      CountAppend("; ", rest, ';');
      FormatSeparators(ls[1..]);
    }
  }

  /** Blank strings parse to no labels. */
  lemma ParseBlankExamples()
    ensures ParseLabels("") == []
    ensures ParseLabels("   ") == []
  {
  }
}
