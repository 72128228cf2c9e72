/**
 * The list bookkeeping of src/app/SermonOutlineUpload.tsx: appending a new
 * saved analysis whose id is its timestamp in decimal, joining verses with
 * ", " for the question generator, and the newest-first copy the saved list
 * is shown in.
 */
module SavedAnalyses {
  import opened Wrappers
  import opened JsText
  import opened JsRuntime

  /**
   * The JSON the upload form receives from the analysis route. A `mainTopic`
   * that is absent reads as ""; `verses` is `None` when absent.
   */
  datatype AnalysisResult = AnalysisResult(mainTopic: string, verses: Option<seq<string>>)

  /** An entry of the saved list. */
  datatype SavedAnalysis = SavedAnalysis(
    id: string,
    timestamp: nat,
    mainTopic: string,
    verses: seq<string>,
    fileTitle: string)

  /** What `onAnalysisComplete(topic, verses)` receives. */
  datatype Handoff = Handoff(topic: string, verses: string)

  /**
   * `data.mainTopic && data.verses`: a truthy topic string and a verses array,
   * which is truthy even when it is empty.
   */
  predicate IsComplete(data: AnalysisResult)
    ensures IsComplete(data) <==> Truthy(Some(JString(data.mainTopic))) && data.verses.Some?
    ensures data.mainTopic != "" && data.verses == Some([]) ==> IsComplete(data)
  {
    data.mainTopic != "" && data.verses.Some?
  }

  // ----- the id: `timestamp.toString()` -----

  function DigitChar(d: nat): (c: char)
    requires d < 10
    ensures '0' <= c <= '9'
  {
    (d + '0' as int) as char
  }

  predicate IsDigits(s: string) {
    forall i :: 0 <= i < |s| ==> '0' <= s[i] <= '9'
  }

  /**
   * `n.toString()` for a `Date.now()` value (below 2^53, where JavaScript
   * prints every integer exactly in plain decimal): its digits, no leading zero.
   */
  function DecimalString(n: nat): (s: string)
    ensures s != [] && IsDigits(s)
    ensures s[0] == '0' ==> n == 0
    decreases n
  {
    if n < 10 then [DigitChar(n)] else DecimalString(n / 10) + [DigitChar(n % 10)]
  }

  /** The number a string of decimal digits denotes. */
  ghost function DecimalValue(s: string): nat
    requires IsDigits(s)
  {
    if s == [] then 0 else 10 * DecimalValue(s[..|s| - 1]) + (s[|s| - 1] as int - '0' as int)
  }

  /** Reading the id back gives the timestamp. */
  lemma {:induction false} DecimalRoundTrip(n: nat)
    ensures DecimalValue(DecimalString(n)) == n
    decreases n
  {
    if n >= 10 {
      var s := DecimalString(n);
      assert s[..|s| - 1] == DecimalString(n / 10);
      DecimalRoundTrip(n / 10);
    }
  }

  /** Entries saved at different milliseconds get different ids. */
  lemma DistinctTimestampsDistinctIds(a: nat, b: nat)
    requires a != b
    ensures DecimalString(a) != DecimalString(b)
  {
    DecimalRoundTrip(a);
    DecimalRoundTrip(b);
  }

  // ----- saving -----

  /**
   * `[...savedAnalyses, newAnalysis]` when the data is complete; otherwise the
   * list is kept as it is. The new entry goes last, its id reads back as its
   * timestamp, and it carries the data and the file's name.
   */
  function SaveAnalysis(saved: seq<SavedAnalysis>, data: AnalysisResult, timestamp: nat, fileTitle: string)
    : (r: seq<SavedAnalysis>)
    ensures |r| == if IsComplete(data) then |saved| + 1 else |saved|
    ensures r[..|saved|] == saved
    ensures IsComplete(data) ==>
              var entry := r[|saved|];
              && entry.id == DecimalString(timestamp)
              && entry.timestamp == timestamp
              && entry.mainTopic == data.mainTopic && entry.verses == data.verses.value
              && entry.fileTitle == fileTitle
  {
    if IsComplete(data) then
      saved + [SavedAnalysis(DecimalString(timestamp), timestamp, data.mainTopic, data.verses.value, fileTitle)]
    else
      saved
  }

  // ----- handing the verses on -----

  /** What the parent receives: the topic, and the verses joined with ", ". */
  function HandoffOf(topic: string, verses: seq<string>): (h: Handoff)
    ensures h.topic == topic
    ensures h.verses == Join(verses, ", ")
  {
    Handoff(topic, Join(verses, ", "))
  }

  /** The verse list can be read back from the handed-on string unless some verse holds a comma. */
  lemma HandoffSplitsBack(topic: string, verses: seq<string>)
    requires verses != [] && forall i :: 0 <= i < |verses| ==> ',' !in verses[i]
    ensures Split(HandoffOf(topic, verses).verses, ", ") == verses
  {
    SplitJoin(verses, ", ");
  }

  /** "Use This Analysis" on a saved entry hands on its stored topic and verses. */
  function UseSaved(entry: SavedAnalysis): (h: Handoff)
    ensures h.topic == entry.mainTopic && h.verses == Join(entry.verses, ", ")
  {
    HandoffOf(entry.mainTopic, entry.verses)
  }

  /** After an upload, and on "Use These Results": only complete data is handed on. */
  function UseResult(data: AnalysisResult): (h: Option<Handoff>)
    ensures h.Some? <==> IsComplete(data)
    ensures h.Some? ==> h.value == HandoffOf(data.mainTopic, data.verses.value)
  {
    if IsComplete(data) then Some(HandoffOf(data.mainTopic, data.verses.value)) else None
  }

  // ----- display order: `slice().sort((a, b) => b.timestamp - a.timestamp)` -----

  predicate NewestFirst(s: seq<SavedAnalysis>) {
    forall i, j :: 0 <= i < j < |s| ==> s[i].timestamp >= s[j].timestamp
  }

  /** Puts `x` before the first entry that is not newer than it. */
  function InsertByTimestamp(x: SavedAnalysis, s: seq<SavedAnalysis>): (r: seq<SavedAnalysis>)
    requires NewestFirst(s)
    ensures NewestFirst(r)
    ensures multiset(r) == multiset(s) + multiset{x}
    ensures |r| == |s| + 1
    ensures r[0] == x || (s != [] && r[0] == s[0])
  {
    if s == [] || s[0].timestamp <= x.timestamp then
      [x] + s
    else
      var rest := InsertByTimestamp(x, s[1..]);
      assert s == [s[0]] + s[1..];
      assert rest[0].timestamp <= s[0].timestamp;
      [s[0]] + rest
  }

  /**
   * The displayed copy: newest first and a permutation of the stored list
   * (which itself is left as it is, being a value).
   */
  function SortByNewest(s: seq<SavedAnalysis>): (r: seq<SavedAnalysis>)
    ensures NewestFirst(r)
    ensures multiset(r) == multiset(s)
  {
    if s == [] then []
    else
      assert s == [s[0]] + s[1..];
      InsertByTimestamp(s[0], SortByNewest(s[1..]))
  }

  /** The entries saved at one millisecond, in order. */
  function AtTime(s: seq<SavedAnalysis>, t: nat): seq<SavedAnalysis> {
    if s == [] then []
    else (if s[0].timestamp == t then [s[0]] else []) + AtTime(s[1..], t)
  }

  lemma {:induction false} InsertKeepsTies(x: SavedAnalysis, s: seq<SavedAnalysis>, t: nat)
    requires NewestFirst(s)
    ensures AtTime(InsertByTimestamp(x, s), t) == (if x.timestamp == t then [x] else []) + AtTime(s, t)
  {
    var r := InsertByTimestamp(x, s);
    if s == [] || s[0].timestamp <= x.timestamp {
      assert r == [x] + s;
      assert r[1..] == s;
    } else {
      var rest := InsertByTimestamp(x, s[1..]);
      assert r == [s[0]] + rest;
      assert r[1..] == rest;
      var head := if s[0].timestamp == t then [s[0]] else [];
      assert AtTime(r, t) == head + AtTime(rest, t);
      assert AtTime(s, t) == head + AtTime(s[1..], t);
      InsertKeepsTies(x, s[1..], t);
      assert x.timestamp == t ==> head == [];
    }
  }

  /**
   * The sort is stable, as Array.prototype.sort is: entries with the same
   * timestamp keep their stored order.
   */
  lemma {:induction false} SortIsStable(s: seq<SavedAnalysis>, t: nat)
    ensures AtTime(SortByNewest(s), t) == AtTime(s, t)
  {
    if s != [] {
      SortIsStable(s[1..], t);
      InsertKeepsTies(s[0], SortByNewest(s[1..]), t);
    }
  }
}
