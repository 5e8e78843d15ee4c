/** The page-range argument of the PDF tool: "3", "1-10", "1,3,5-7". Parsed here character by
    character; its meaning is a set of pages. */
module PageSpec {
  import opened Modular
  import opened Seqs
  import opened Sorting
  import opened Text

  const WIDTH_CAP: int := 1000

  // ---- integers ----

  predicate IsDigits(s: string) {
    forall i :: 0 <= i < |s| ==> '0' <= s[i] <= '9'
  }

  /** Value of a digit string. */
  function Value(s: string): nat
    requires IsDigits(s)
  {
    if s == [] then 0 else 10 * Value(s[..|s| - 1]) + (s[|s| - 1] as int - '0' as int)
  }

  /** Decimal integer with an optional sign, in the range of a signed 64-bit integer. */
  function Atoi(s: string): Option<int> {
    var negative := s != [] && s[0] == '-';
    var digits := if s != [] && (s[0] == '-' || s[0] == '+') then s[1..] else s;
    if digits == [] || !IsDigits(digits) then None
    else
      var v: int := if negative then 0 - Value(digits) else Value(digits);
      if -MAX_INT64 - 1 <= v <= MAX_INT64 then Some(v) else None
  }

  // ---- meaning ----

  /** One comma-separated part: nothing, one page, the pages lo..hi, malformed, or wider than the cap. */
  datatype Part = Blank | Page(page: int) | Range(lo: int, hi: int) | Malformed | TooWide

  function Denote(part: string, widthCap: int): Part {
    var t := TrimSpace(part);
    if t == [] then Blank
    else if '-' in t then
      var i := IndexOf(t, '-');
      assert i < |t|;
      var lo, hi := Atoi(TrimSpace(t[..i])), Atoi(TrimSpace(t[i + 1..]));
      if lo.None? || hi.None? || lo.value < 1 || hi.value < lo.value then Malformed
      else if hi.value - lo.value + 1 > widthCap then TooWide
      else Range(lo.value, hi.value)
    else
      var p := Atoi(t);
      if p.None? || p.value < 1 then Malformed else Page(p.value)
  }

  predicate Bad(p: Part) {
    p.Malformed? || p.TooWide?
  }

  /** The pages some part names. */
  ghost predicate Names(parts: seq<string>, widthCap: int, p: int) {
    exists i :: 0 <= i < |parts| && Covers(Denote(parts[i], widthCap), p)
  }

  predicate Covers(d: Part, p: int) {
    match d
    case Page(q) => p == q
    case Range(lo, hi) => lo <= p <= hi
    case _ => false
  }

  /** Endless: the expansion of a range never ends. */
  datatype Result = Parsed(pages: seq<int>) | FormatError | WidthError | Endless

  ghost predicate Ascending(s: seq<int>) {
    forall i, j :: 0 <= i < j < |s| ==> s[i] < s[j]
  }

  // ---- the expansion loop on a 64-bit counter ----

  function Increment(p: int): int {
    if p == MAX_INT64 then -MAX_INT64 - 1 else p + 1
  }

  /** The loop counter after k rounds. */
  function Counter(lo: int, k: nat): int {
    if k == 0 then lo else Increment(Counter(lo, k - 1))
  }

  /** Some round finds the counter past the upper end. */
  ghost predicate LoopEnds(lo: int, hi: int) {
    exists k: nat :: Counter(lo, k) > hi
  }

  lemma {:induction false} CounterSteps(lo: int, k: nat)
    requires 1 <= lo <= MAX_INT64
    ensures -MAX_INT64 - 1 <= Counter(lo, k) <= MAX_INT64
    ensures k <= MAX_INT64 - lo ==> Counter(lo, k) == lo + k
  {
    if k > 0 {
      CounterSteps(lo, k - 1);
    }
  }

  /** The expansion of a range ends exactly when its upper end is not the greatest 64-bit integer. */
  lemma LoopEndsIff(lo: int, hi: int)
    requires 1 <= lo <= hi <= MAX_INT64
    ensures LoopEnds(lo, hi) <==> hi < MAX_INT64
  {
    if hi < MAX_INT64 {
      CounterSteps(lo, hi + 1 - lo);
      assert Counter(lo, hi + 1 - lo) > hi;
    } else {
      forall k: nat ensures Counter(lo, k) <= hi {
        CounterSteps(lo, k);
      }
    }
  }

  /** A part the parser never gets past, though nothing is wrong with it. */
  ghost predicate Stalls(d: Part) {
    d.Range? && !LoopEnds(d.lo, d.hi)
  }

  predicate EndsAtMax(d: Part) {
    d.Range? && d.hi == MAX_INT64
  }

  lemma DenoteRange(part: string, widthCap: int)
    ensures var d := Denote(part, widthCap); d.Range? ==> 1 <= d.lo <= d.hi <= MAX_INT64
  {}

  lemma StallsIff(part: string, widthCap: int)
    ensures Stalls(Denote(part, widthCap)) <==> EndsAtMax(Denote(part, widthCap))
  {
    hide LoopEnds;
    var d := Denote(part, widthCap);
    DenoteRange(part, widthCap);
    if d.Range? {
      LoopEndsIff(d.lo, d.hi);
    }
  }

  // ---- the parser ----

  method AddPage(out0: seq<int>, seen0: set<int>, p: int) returns (out: seq<int>, seen: set<int>)
    requires NoDuplicates(out0) && seen0 == (set q | q in out0)
    ensures NoDuplicates(out) && seen == (set q | q in out)
    ensures forall q :: q in out <==> q in out0 || q == p
  {
    out, seen := out0, seen0;
    if p !in seen {
      seen := seen + {p};
      out := out + [p];
    }
  }

  /** Adds lo..hi to the pages seen, each once, where the counter gets past hi. */
  method AddRange(out0: seq<int>, seen0: set<int>, lo: int, hi: int) returns (out: seq<int>, seen: set<int>)
    requires NoDuplicates(out0) && seen0 == (set p | p in out0)
    requires 1 <= lo <= hi <= MAX_INT64 && LoopEnds(lo, hi)
    ensures NoDuplicates(out) && seen == (set p | p in out)
    ensures forall p :: p in out <==> p in out0 || lo <= p <= hi
  {
    LoopEndsIff(lo, hi);
    out, seen := out0, seen0;
    var p := lo;
    while p <= hi
      invariant lo <= p <= hi + 1
      invariant NoDuplicates(out) && seen == (set q | q in out)
      invariant forall q :: q in out <==> q in out0 || lo <= q < p
    {
      out, seen := AddPage(out, seen, p);
      p := Increment(p);
    }
  }

  ghost predicate Stops(part: string, widthCap: int) {
    Bad(Denote(part, widthCap)) || Stalls(Denote(part, widthCap))
  }

  /** Index of the first part that is bad or never got past; the number of parts when there is none. */
  ghost function FirstStop(parts: seq<string>, widthCap: int): (i: nat)
    ensures i <= |parts| && (i < |parts| ==> Stops(parts[i], widthCap))
    ensures forall j :: 0 <= j < i ==> !Stops(parts[j], widthCap)
  {
    if parts == [] || Stops(parts[0], widthCap) then 0 else 1 + FirstStop(parts[1..], widthCap)
  }

  /** The answer for a list of parts: the pages they name, or what the first part that stops the
      parser makes of it. */
  ghost predicate Answers(parts: seq<string>, widthCap: int, r: Result) {
    var stop := FirstStop(parts, widthCap);
    if stop == |parts| then r.Parsed? && Ascending(r.pages) && forall p :: p in r.pages <==> Names(parts, widthCap, p)
    else r == var d := Denote(parts[stop], widthCap);
              if Stalls(d) then Endless else if d.TooWide? then WidthError else FormatError
  }

  ghost predicate BadBefore(parts: seq<string>, widthCap: int, i: nat)
    requires i <= |parts|
  {
    exists j: nat :: j < i && Bad(Denote(parts[j], widthCap))
  }

  /** Some range that ends at the greatest 64-bit integer comes before any bad part. */
  ghost predicate Overruns(parts: seq<string>, widthCap: int) {
    exists i: nat :: i < |parts| && EndsAtMax(Denote(parts[i], widthCap)) && !BadBefore(parts, widthCap, i)
  }

  /** Which answer it is, in terms of the parts alone. */
  lemma AnswerIff(parts: seq<string>, widthCap: int, r: Result)
    requires Answers(parts, widthCap, r)
    ensures r.Endless? <==> Overruns(parts, widthCap)
    ensures r.Parsed? <==> !Overruns(parts, widthCap) && !BadBefore(parts, widthCap, |parts|)
  {
    hide Denote, LoopEnds, Names;
    var stop := FirstStop(parts, widthCap);
    forall i | 0 <= i < |parts| ensures Stalls(Denote(parts[i], widthCap)) <==> EndsAtMax(Denote(parts[i], widthCap)) {
      StallsIff(parts[i], widthCap);
    }
    if stop < |parts| && EndsAtMax(Denote(parts[stop], widthCap)) {
      assert !BadBefore(parts, widthCap, stop);
    }
  }

  /** Ends exactly unless a range that ends at the greatest 64-bit integer comes before any bad part;
      succeeds exactly when moreover no part is malformed, below 1, reversed or too wide, and then
      returns, in ascending order and once each, the pages some part names. */
  method ParsePagesSpec(spec0: string, widthCap: int) returns (r: Result)
    ensures var parts := Split(TrimSpace(spec0), ',');
            && Answers(parts, widthCap, r)
            && (r.Endless? <==> Overruns(parts, widthCap))
            && (r.Parsed? <==> !Overruns(parts, widthCap) && !BadBefore(parts, widthCap, |parts|))
  {
    hide FirstStop, Overruns, BadBefore;
    var spec := TrimSpace(spec0);
    if spec == "" {
      r := Parsed([]);
      EmptySpec(widthCap);
    } else {
      r := ParseParts(Split(spec, ','), widthCap);
    }
    AnswerIff(Split(spec, ','), widthCap, r);
  }

  lemma EmptySpec(widthCap: int)
    ensures Split("", ',') == [""] && Answers([""], widthCap, Parsed([]))
  {
    assert Denote("", widthCap) == Blank;
    assert [""][1..] == [];
    assert FirstStop([""], widthCap) == 1;
  }

  method ParseParts(parts: seq<string>, widthCap: int) returns (r: Result)
    ensures Answers(parts, widthCap, r)
  {
    hide Denote, Names, FirstStop, LoopEnds;
    var out: seq<int>, seen: set<int> := [], {};
    NamesNothing(parts, widthCap);
    for i := 0 to |parts|
      invariant NoDuplicates(out) && seen == (set p | p in out)
      invariant FirstStop(parts, widthCap) >= i
      invariant forall p :: p in out <==> Names(parts[..i], widthCap, p)
    {
      var d := ReadPart(parts[i], widthCap);
      if Bad(d) {
        StallsIff(parts[i], widthCap);
        return if d.TooWide? then WidthError else FormatError;
      }
      ghost var before := out;
      StallsIff(parts[i], widthCap);
      match d {
        case Page(p) =>
          out, seen := AddPage(out, seen, p);
        case Range(lo, hi) =>
          if hi == MAX_INT64 {
            return Endless;  // the counter wraps before it passes hi: the loop goes on for ever
          }
          out, seen := AddRange(out, seen, lo, hi);
        case _ =>
      }
      assert forall p :: p in out <==> p in before || Covers(d, p);
      NamesSnoc(parts, widthCap, i);
    }
    r := Finish(parts, widthCap, out);
  }

  method Finish(parts: seq<string>, widthCap: int, out: seq<int>) returns (r: Result)
    requires NoDuplicates(out) && forall p :: p in out <==> Names(parts[..|parts|], widthCap, p)
    ensures r.Parsed? && Ascending(r.pages) && forall p :: p in r.pages <==> Names(parts, widthCap, p)
  {
    assert parts[..|parts|] == parts;
    SortAscendingCorrect(out);
    SortedDistinct(out);
    r := Parsed(SortAscending(out));
  }

  /** Reads one part, measuring a range before anything is made of it. */
  method ReadPart(part0: string, widthCap: int) returns (d: Part)
    ensures d == Denote(part0, widthCap) && (d.Range? ==> 1 <= d.lo <= d.hi <= MAX_INT64)
  {
    var part := TrimSpace(part0);
    if part == "" {
      return Blank;
    }
    if '-' in part {
      var k := IndexOf(part, '-');
      assert k < |part|;
      var from, to := Atoi(TrimSpace(part[..k])), Atoi(TrimSpace(part[k + 1..]));
      if from.None? || to.None? || from.value < 1 || to.value < from.value {
        return Malformed;
      }
      if to.value - from.value + 1 > widthCap {
        return TooWide;
      }
      return Range(from.value, to.value);
    }
    var p := Atoi(part);
    if p.None? || p.value < 1 {
      return Malformed;
    }
    d := Page(p.value);
  }

  lemma NamesNothing(parts: seq<string>, widthCap: int)
    ensures forall p :: !Names(parts[..0], widthCap, p)
  {}

  lemma NamesSnoc(parts: seq<string>, widthCap: int, i: nat)
    requires i < |parts|
    ensures forall p :: Names(parts[..i + 1], widthCap, p) <==>
              Names(parts[..i], widthCap, p) || Covers(Denote(parts[i], widthCap), p)
  {
    hide Names;
    assert parts[..i + 1] == parts[..i] + [parts[i]];
    forall p ensures Names(parts[..i + 1], widthCap, p) <==>
      Names(parts[..i], widthCap, p) || Covers(Denote(parts[i], widthCap), p) {
      NamesOneMore(parts[..i], parts[i], widthCap, p);
    }
  }

  lemma NamesOneMore(parts: seq<string>, part: string, widthCap: int, p: int)
    ensures Names(parts + [part], widthCap, p) <==> Names(parts, widthCap, p) || Covers(Denote(part, widthCap), p)
  {
    hide Denote;
    var all := parts + [part];
    assert all[|parts|] == part;
    if Names(parts, widthCap, p) {
      var k :| 0 <= k < |parts| && Covers(Denote(parts[k], widthCap), p);
      assert all[k] == parts[k];
    }
  }

  lemma SortedDistinct(s: seq<int>)
    requires NoDuplicates(s)
    ensures Ascending(SortAscending(s))
  {
    SortAscendingCorrect(s);
    PermutedDistinct(s, SortAscending(s));
  }

  /** The result denotes a set: ascending lists with the same members are equal, so the pages named
      determine the answer. */
  lemma {:induction false} AscendingUnique(s: seq<int>, t: seq<int>)
    requires Ascending(s) && Ascending(t) && forall p :: p in s <==> p in t
    ensures s == t
    decreases |s|
  {
    SameLength(s, t);
    if s != [] {
      SameGreatest(s, t);
      AscendingDrop(s);
      AscendingDrop(t);
      var s', t' := s[..|s| - 1], t[..|t| - 1];
      assert forall p :: p in s' <==> p in s && p != s[|s| - 1];
      AscendingUnique(s', t');
    }
  }

  lemma SameLength(s: seq<int>, t: seq<int>)
    requires Ascending(s) && Ascending(t) && forall p :: p in s <==> p in t
    ensures |s| == |t|
  {
    DistinctSetSize(s);
    DistinctSetSize(t);
    assert (set p | p in s) == (set p | p in t);
  }

  lemma AscendingDrop(s: seq<int>)
    requires Ascending(s) && s != []
    ensures Ascending(s[..|s| - 1]) && s == s[..|s| - 1] + [s[|s| - 1]]
    ensures forall p :: p in s[..|s| - 1] <==> p in s && p != s[|s| - 1]
  {
    var i := s[..|s| - 1];
    assert s == i + [s[|s| - 1]];
  }

  lemma SameGreatest(s: seq<int>, t: seq<int>)
    requires Ascending(s) && Ascending(t) && (forall p :: p in s <==> p in t) && s != [] && t != []
    ensures s[|s| - 1] == t[|t| - 1]
  {
    assert s[|s| - 1] in s && t[|t| - 1] in t;
  }

  // ---- printed pages are read back ----

  function Decimal(n: nat): string {
    (if n < 10 then [] else Decimal(n / 10)) + ['0' + (n % 10) as char]
  }

  lemma {:induction false} DecimalValue(n: nat)
    ensures Decimal(n) != [] && IsDigits(Decimal(n)) && Value(Decimal(n)) == n
  {
    if n >= 10 {
      DecimalValue(n / 10);
    }
    var d := if n < 10 then [] else Decimal(n / 10);
    assert Decimal(n)[..|d|] == d;
  }

  /** A printed number is read back while it fits 64 bits, with or without a sign. */
  lemma AtoiDecimal(n: nat)
    ensures Atoi(Decimal(n)) == (if n <= MAX_INT64 then Some(n) else None)
    ensures Atoi("+" + Decimal(n)) == (if n <= MAX_INT64 then Some(n) else None)
    ensures Atoi("-" + Decimal(n)) == (if n <= MAX_INT64 + 1 then Some(0 - n) else None)
  {
    DecimalValue(n);
    hide Decimal, Value;
    assert ("+" + Decimal(n))[1..] == Decimal(n) && ("-" + Decimal(n))[1..] == Decimal(n);
  }

  /** "3" is page 3, "5-7" are pages 5 to 7; a range that ends before it starts is malformed, and one
      of more pages than the cap too wide. */
  lemma DenotePrinted(a: nat, b: nat, widthCap: int)
    requires 1 <= a <= MAX_INT64 && 1 <= b <= MAX_INT64
    ensures Denote(Decimal(a), widthCap) == Page(a)
    ensures Denote(Decimal(a) + "-" + Decimal(b), widthCap)
            == if b < a then Malformed else if b - a + 1 > widthCap then TooWide else Range(a, b)
    ensures Denote("0", widthCap) == Malformed
  {
    DecimalValue(a);
    DecimalValue(b);
    AtoiDecimal(a);
    AtoiDecimal(b);
    var s, t := Decimal(a), Decimal(b);
    hide Decimal, Value, TrimSpace, Atoi;
    var r := s + "-" + t;
    Untrimmed(s);
    Untrimmed(t);
    Untrimmed(r);
    DashAt(s, t);
    assert r[..|s|] == s && r[|s| + 1..] == t && r[|s|] == '-';
    assert '-' !in s;
    Untrimmed("0");
    AtoiDecimal(0);
    assert "0" == Decimal(0) by { DecimalZero(); }
  }

  lemma DecimalZero()
    ensures Decimal(0) == "0"
  {}

  /** One part as a caller writes it: a page or a range. */
  datatype Ask = One(page: nat) | FromTo(lo: nat, hi: nat)

  predicate Askable(q: Ask, widthCap: int) {
    match q
    case One(p) => 1 <= p <= MAX_INT64
    case FromTo(a, b) => 1 <= a <= b < MAX_INT64 && b - a + 1 <= widthCap
  }

  predicate Asks(q: Ask, p: int) {
    match q
    case One(x) => p == x
    case FromTo(a, b) => a <= p <= b
  }

  function Printed(q: Ask): string {
    match q
    case One(p) => Decimal(p)
    case FromTo(a, b) => Decimal(a) + "-" + Decimal(b)
  }

  function PrintedAll(qs: seq<Ask>): seq<string> {
    seq(|qs|, i requires 0 <= i < |qs| => Printed(qs[i]))
  }

  lemma PrintedPlain(q: Ask, widthCap: int)
    requires Askable(q, widthCap)
    ensures ',' !in Printed(q) && Printed(q) != [] && TrimSpace(Printed(q)) == Printed(q)
    ensures '0' <= Printed(q)[0] <= '9' && '0' <= Printed(q)[|Printed(q)| - 1] <= '9'
    ensures var d := Denote(Printed(q), widthCap); !Bad(d) && !EndsAtMax(d) && forall p :: Covers(d, p) <==> Asks(q, p)
  {
    hide Decimal, Denote, TrimSpace, Value, IsSpace;
    match q {
      case One(p) =>
        DecimalValue(p);
        DenotePrinted(p, p, widthCap);
        DigitEnds(Decimal(p));
      case FromTo(a, b) =>
        DecimalValue(a);
        DecimalValue(b);
        DenotePrinted(a, b, widthCap);
        DashedEnds(Decimal(a), Decimal(b));
    }
    Untrimmed(Printed(q));
  }

  lemma DigitEnds(s: string)
    requires IsDigits(s) && s != []
    ensures ',' !in s && '0' <= s[0] <= '9' && '0' <= s[|s| - 1] <= '9'
  {}

  lemma DashedEnds(s: string, t: string)
    requires IsDigits(s) && IsDigits(t) && s != [] && t != []
    ensures var r := s + "-" + t;
            ',' !in r && '0' <= r[0] <= '9' && '0' <= r[|r| - 1] <= '9'
  {
    DigitEnds(s);
    DigitEnds(t);
    hide IsDigits;
  }

  lemma PrintedJoined(qs: seq<Ask>, widthCap: int)
    requires qs != [] && forall i :: 0 <= i < |qs| ==> Askable(qs[i], widthCap)
    ensures Split(TrimSpace(Join(PrintedAll(qs), ',')), ',') == PrintedAll(qs)
  {
    var parts := PrintedAll(qs);
    forall i | 0 <= i < |qs|
      ensures ',' !in parts[i] && parts[i] != [] && '0' <= parts[i][0] <= '9' && '0' <= parts[i][|parts[i]| - 1] <= '9'
    {
      PrintedPlain(qs[i], widthCap);
    }
    hide Printed, Askable, Denote, Split, Join, TrimSpace;
    JoinEnds(parts, ',');
    assert |parts| == |qs| && parts[0] != [] && parts[|qs| - 1] != [];
    Untrimmed(Join(parts, ','));
    JoinSplits(parts, ',');
  }

  /** The parts of a printed specification are the printed parts, none of which stops the parser. */
  lemma PrintedParts(qs: seq<Ask>, widthCap: int)
    requires qs != [] && forall i :: 0 <= i < |qs| ==> Askable(qs[i], widthCap)
    ensures Split(TrimSpace(Join(PrintedAll(qs), ',')), ',') == PrintedAll(qs)
    ensures FirstStop(PrintedAll(qs), widthCap) == |qs|
  {
    var parts := PrintedAll(qs);
    forall i | 0 <= i < |qs|
      ensures !Bad(Denote(parts[i], widthCap)) && !EndsAtMax(Denote(parts[i], widthCap))
    {
      PrintedPlain(qs[i], widthCap);
    }
    hide Printed, Denote, Bad, EndsAtMax, Split, Join, TrimSpace, FirstStop;
    PrintedJoined(qs, widthCap);
    NoStop(parts, widthCap);
  }

  /** A specification written as pages and ranges between commas is parsed into exactly those pages. */
  lemma PrintedIsRead(qs: seq<Ask>, widthCap: int, r: Result)
    requires qs != [] && forall i :: 0 <= i < |qs| ==> Askable(qs[i], widthCap)
    requires Answers(Split(TrimSpace(Join(PrintedAll(qs), ',')), ','), widthCap, r)
    ensures r.Parsed? && Ascending(r.pages)
    ensures forall p :: p in r.pages <==> exists i :: 0 <= i < |qs| && Asks(qs[i], p)
  {
    hide Printed, Denote, Split, Join, TrimSpace, FirstStop, Asks, Covers;
    PrintedParts(qs, widthCap);
    var parts := PrintedAll(qs);
    forall i, p | 0 <= i < |qs| ensures Covers(Denote(parts[i], widthCap), p) <==> Asks(qs[i], p) {
      PrintedPlain(qs[i], widthCap);
    }
  }

  lemma NoStop(parts: seq<string>, widthCap: int)
    requires forall i :: 0 <= i < |parts| ==> !Bad(Denote(parts[i], widthCap)) && !EndsAtMax(Denote(parts[i], widthCap))
    ensures FirstStop(parts, widthCap) == |parts|
  {
    hide Denote, FirstStop, LoopEnds;
    var i := FirstStop(parts, widthCap);
    if i < |parts| {
      StallsIff(parts[i], widthCap);
    }
  }

  // ---- a range at the top of the 64-bit integers ----

  const TOP: string := "9223372036854775807"

  function Digit(c: char): int {
    c as int - '0' as int
  }

  lemma ValueStep(s: string, i: nat)
    requires IsDigits(s) && i < |s|
    ensures Value(s[..i + 1]) == 10 * Value(s[..i]) + Digit(s[i])
  {
    assert s[..i + 1][..i] == s[..i];
  }

  lemma ThreeDigits(s: string, i: nat)
    requires IsDigits(s) && i + 3 <= |s|
    ensures Value(s[..i + 3]) == 1000 * Value(s[..i]) + 100 * Digit(s[i]) + 10 * Digit(s[i + 1]) + Digit(s[i + 2])
  {
    ValueStep(s, i);
    ValueStep(s, i + 1);
    ValueStep(s, i + 2);
  }

  lemma TopTen(s: string)
    requires IsDigits(s) && |s| == 19
    requires s[0] == '9' && s[1] == '2' && s[2] == '2' && s[3] == '3' && s[4] == '3'
    requires s[5] == '7' && s[6] == '2' && s[7] == '0' && s[8] == '3' && s[9] == '6'
    ensures Value(s[..10]) == 9223372036
  {
    assert Value(s[..0]) == 0;
    hide Value, IsDigits;
    ValueStep(s, 0);
    ThreeDigits(s, 1);
    ThreeDigits(s, 4);
    ThreeDigits(s, 7);
  }

  lemma TopDigits(s: string)
    requires IsDigits(s) && |s| == 19 && Value(s[..10]) == 9223372036
    requires s[10] == '8' && s[11] == '5' && s[12] == '4' && s[13] == '7' && s[14] == '7'
    requires s[15] == '5' && s[16] == '8' && s[17] == '0' && s[18] == '7'
    ensures Value(s) == MAX_INT64
  {
    hide Value, IsDigits;
    ThreeDigits(s, 10);
    ThreeDigits(s, 13);
    ThreeDigits(s, 16);
    assert s[..19] == s;
  }

  lemma TopValue()
    ensures |TOP| == 19 && IsDigits(TOP) && Value(TOP) == MAX_INT64
  {
    TopTen(TOP);
    TopDigits(TOP);
  }

  /** A range of one page, but the last 64-bit integer: within the cap, yet never expanded. */
  lemma TopRange()
    ensures Denote(TOP + "-" + TOP, WIDTH_CAP) == Range(MAX_INT64, MAX_INT64)
    ensures Split(TOP + "-" + TOP, ',') == [TOP + "-" + TOP] && Overruns([TOP + "-" + TOP], WIDTH_CAP)
  {
    TopValue();
    hide Denote, Value;
    RangeOf(TOP);
    OverrunsAlone(TOP + "-" + TOP, WIDTH_CAP);
  }

  lemma RangeOf(t: string)
    requires t != [] && IsDigits(t) && Value(t) == MAX_INT64
    ensures Denote(t + "-" + t, WIDTH_CAP) == Range(MAX_INT64, MAX_INT64)
    ensures Split(t + "-" + t, ',') == [t + "-" + t]
  {
    hide Value, TrimSpace, Split, IsSpace, LoopEnds;
    var s := t + "-" + t;
    Untrimmed(s);
    Untrimmed(t);
    DashAt(t, t);
    SplitPlain(s, ',');
    assert s[..|t|] == t && s[|t| + 1..] == t;
  }

  lemma OverrunsAlone(part: string, widthCap: int)
    requires EndsAtMax(Denote(part, widthCap))
    ensures Overruns([part], widthCap)
  {
    assert EndsAtMax(Denote([part][0], widthCap)) && !BadBefore([part], widthCap, 0);
  }

  lemma Untrimmed(s: string)
    requires s != [] && '0' <= s[0] <= '9' && '0' <= s[|s| - 1] <= '9'
    ensures TrimSpace(s) == s
  {}

  lemma {:induction false} DashAt(a: string, b: string)
    requires '-' !in a
    ensures IndexOf(a + "-" + b, '-') == |a|
  {
    var s := a + "-" + b;
    assert s[|a|] == '-' && forall k :: 0 <= k < |a| ==> s[k] == a[k];
  }
}
