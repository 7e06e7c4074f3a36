/**
 * `parse_ports` (src/main.rs): turns a port specification such as
 * "22,80,1000-1024" into the ascending list of distinct, non-zero ports it
 * names, or fails as a whole.
 *
 * `ParsePortsSpec` states the result as a function of the input; the method
 * `ParsePorts` is the loop the Rust code runs, proved equal to it. The lemmas
 * relate `ParsePortsSpec` to a declarative reading of the specification
 * (`WellFormedToken`, `CoversPort`).
 */
module PortSpec {
  import opened Wrappers
  import opened Text
  import opened U16Parse
  import opened VecOps

  /** The four ways `parse_ports` fails; `InvalidPort` carries the error of `u16::from_str`. */
  datatype ParseError =
    | InvalidRangeFormat
    | StartAfterEnd
    | InvalidPort(kind: IntErrorKind)
    | NoValidPorts

  /** The comma-separated pieces of the input, each trimmed (empty ones included). */
  function Tokens(s: string): seq<string> {
    var parts := Split(s, ',');
    seq(|parts|, k requires 0 <= k < |parts| => Trim(parts[k]))
  }

  /** The integers lo, lo + 1, ..., hi - 1. */
  function Range(lo: int, hi: int): seq<int>
    requires lo <= hi
  {
    seq(hi - lo, i => lo + i)
  }

  /** The ports one trimmed token contributes, or the error it raises. */
  function TokenPorts(t: string): (r: Result<seq<int>, ParseError>)
    ensures r.Ok? ==> forall i :: 0 <= i < |r.value| ==> 0 <= r.value[i] <= U16_MAX
    ensures r.Err? ==> r.error != NoValidPorts
  {
    if t == [] then Ok([])
    else if '-' in t then
      var nums := Split(t, '-');
      if |nums| != 2 then Err(InvalidRangeFormat) else RangePorts(nums[0], nums[1])
    else
      match ParseU16(t)
      case Err(k) => Err(InvalidPort(k))
      case Ok(n) => Ok([n])
  }

  /** The ports of a range token whose two sides are `a` and `b`. */
  function RangePorts(a: string, b: string): (r: Result<seq<int>, ParseError>)
    ensures r.Ok? ==> forall i :: 0 <= i < |r.value| ==> 0 <= r.value[i] <= U16_MAX
    ensures r.Err? ==> r.error.InvalidPort? || r.error == StartAfterEnd
  {
    match ParseU16(a)
    case Err(k) => Err(InvalidPort(k))
    case Ok(start) =>
      match ParseU16(b)
      case Err(k) => Err(InvalidPort(k))
      case Ok(end) =>
        if start > end then Err(StartAfterEnd) else Ok(Range(start, end + 1))
  }

  /** What the loop has pushed after the tokens `ts`, or the first error among them. */
  function Collect(ts: seq<string>): (r: Result<seq<int>, ParseError>)
    ensures r.Ok? ==> forall i :: 0 <= i < |r.value| ==> 0 <= r.value[i] <= U16_MAX
    ensures r.Err? ==> r.error != NoValidPorts
  {
    if ts == [] then Ok([])
    else
      match Collect(ts[..|ts| - 1])
      case Err(e) => Err(e)
      case Ok(v) =>
        match TokenPorts(ts[|ts| - 1])
        case Err(e) => Err(e)
        case Ok(xs) =>
          assert forall i :: |v| <= i < |v + xs| ==> (v + xs)[i] == xs[i - |v|];
          Ok(v + xs)
  }

  /** `sort`, `dedup`, `retain(|&p| p != 0)` and the emptiness check, applied to the collected ports. */
  function Finalize(v: seq<int>): (r: Result<seq<int>, ParseError>)
    ensures r.Ok? ==> StrictlyIncreasing(r.value) && r.value != []
    ensures r.Ok? ==> forall x :: x in r.value <==> x in v && x != 0
    ensures r.Err? ==> r.error == NoValidPorts && forall x :: x in v ==> x == 0
    ensures (exists x :: x in v && x != 0) ==> r.Ok?
  {
    var w := RetainNonZero(Dedup(Sort(v)));
    assert forall x :: x in Sort(v) <==> x in v by {
      assert forall x :: x in Sort(v) <==> x in multiset(Sort(v));
    }
    if w == [] then Err(NoValidPorts) else Ok(w)
  }

  /** The result of `parse_ports(s)`. */
  function ParsePortsSpec(s: string): Result<seq<int>, ParseError> {
    match Collect(Tokens(s))
    case Err(e) => Err(e)
    case Ok(v) => Finalize(v)
  }

  // ---- The specification, read declaratively ----

  /** A range token "a-b": exactly one '-', both sides numerals of 16-bit values. */
  predicate RangeToken(t: string) {
    Occurrences(t, '-') == 1
    && IsNumeral(Split(t, '-')[0]) && NumeralValue(Split(t, '-')[0]) <= U16_MAX
    && IsNumeral(Split(t, '-')[1]) && NumeralValue(Split(t, '-')[1]) <= U16_MAX
  }

  function RangeStart(t: string): nat
    requires RangeToken(t)
  {
    NumeralValue(Split(t, '-')[0])
  }

  function RangeEnd(t: string): nat
    requires RangeToken(t)
  {
    NumeralValue(Split(t, '-')[1])
  }

  /** A token the parser accepts: empty, a 16-bit numeral, or a range that is not inverted. */
  predicate WellFormedToken(t: string) {
    t == []
    || ('-' !in t && IsNumeral(t) && NumeralValue(t) <= U16_MAX)
    || (RangeToken(t) && RangeStart(t) <= RangeEnd(t))
  }

  /** Token `t` names port `p`: it is the numeral of `p`, or a range "a-b" with a <= p <= b. */
  predicate CoversPort(t: string, p: int) {
    ('-' !in t && IsU16Numeral(t, p))
    || (RangeToken(t) && RangeStart(t) <= p <= RangeEnd(t))
  }

  // ---- Lemmas ----

  lemma RangeMembers(lo: int, hi: int, x: int)
    requires lo <= hi
    ensures x in Range(lo, hi) <==> lo <= x < hi
  {
    if lo <= x < hi {
      assert Range(lo, hi)[x - lo] == x;
    }
  }

  /** A token is accepted exactly when it is well formed, and then yields exactly the ports it covers. */
  lemma TokenPortsCorrect(t: string)
    ensures TokenPorts(t).Ok? <==> WellFormedToken(t)
    ensures TokenPorts(t).Ok? ==> forall p :: p in TokenPorts(t).value <==> CoversPort(t, p)
    ensures TokenPorts(t) == Err(InvalidRangeFormat) <==> Occurrences(t, '-') >= 2
    ensures TokenPorts(t) == Err(StartAfterEnd) <==> RangeToken(t) && RangeStart(t) > RangeEnd(t)
  {
    OccurrencesIn(t, '-');
    if t != [] {
      if '-' in t {
        RangeTokenPorts(t);
      } else {
        ParseU16Correct(t);
      }
    }
  }

  lemma RangeTokenPorts(t: string)
    requires '-' in t
    ensures TokenPorts(t).Ok? <==> RangeToken(t) && RangeStart(t) <= RangeEnd(t)
    ensures TokenPorts(t).Ok? ==> forall p :: p in TokenPorts(t).value <==> CoversPort(t, p)
    ensures TokenPorts(t) == Err(InvalidRangeFormat) <==> Occurrences(t, '-') >= 2
    ensures TokenPorts(t) == Err(StartAfterEnd) <==> RangeToken(t) && RangeStart(t) > RangeEnd(t)
  {
    OccurrencesIn(t, '-');
    var nums := Split(t, '-');
    if |nums| == 2 {
      RangePairPorts(t, nums[0], nums[1]);
    } else {
      assert !RangeToken(t);
      assert TokenPorts(t) == Err(InvalidRangeFormat);
    }
  }

  /** The case of `RangeTokenPorts` where the token has exactly the two sides `a` and `b`. */
  lemma RangePairPorts(t: string, a: string, b: string)
    requires '-' in t && Split(t, '-') == [a, b]
    ensures TokenPorts(t).Ok? <==> RangeToken(t) && RangeStart(t) <= RangeEnd(t)
    ensures TokenPorts(t).Ok? ==> forall p :: p in TokenPorts(t).value <==> CoversPort(t, p)
    ensures TokenPorts(t) != Err(InvalidRangeFormat) && Occurrences(t, '-') == 1
    ensures TokenPorts(t) == Err(StartAfterEnd) <==> RangeToken(t) && RangeStart(t) > RangeEnd(t)
  {
    RangeTokenPair(t, a, b);
    RangePortsCorrect(a, b);
    if TokenPorts(t).Ok? {
      RangePairCovers(t, a, b);
    }
  }

  /** An accepted range token yields exactly the ports it covers. */
  lemma RangePairCovers(t: string, a: string, b: string)
    requires '-' in t && Split(t, '-') == [a, b] && RangePorts(a, b).Ok?
    ensures TokenPorts(t).Ok? && forall p :: p in TokenPorts(t).value <==> CoversPort(t, p)
  {
    RangeTokenPair(t, a, b);
    RangePortsCorrect(a, b);
    var lo, hi := NumeralValue(a), NumeralValue(b);
    forall p ensures p in Range(lo, hi + 1) <==> CoversPort(t, p) {
      RangeMembers(lo, hi + 1, p);
    }
  }

  /** A token with exactly one '-' unfolds into its two sides. */
  lemma RangeTokenPair(t: string, a: string, b: string)
    requires '-' in t && Split(t, '-') == [a, b]
    ensures Occurrences(t, '-') == 1
    ensures TokenPorts(t) == RangePorts(a, b)
    ensures RangeToken(t) <==>
      IsNumeral(a) && NumeralValue(a) <= U16_MAX && IsNumeral(b) && NumeralValue(b) <= U16_MAX
    ensures RangeToken(t) ==> RangeStart(t) == NumeralValue(a) && RangeEnd(t) == NumeralValue(b)
    ensures forall p :: CoversPort(t, p) <==> RangeToken(t) && NumeralValue(a) <= p <= NumeralValue(b)
  {
  }

  /** A range a-b is accepted exactly when both sides are 16-bit numerals and a <= b; the error names the first failure. */
  lemma RangePortsCorrect(a: string, b: string)
    ensures RangePorts(a, b).Ok? <==>
      IsNumeral(a) && NumeralValue(a) <= U16_MAX && IsNumeral(b) && NumeralValue(b) <= U16_MAX
      && NumeralValue(a) <= NumeralValue(b)
    ensures RangePorts(a, b).Ok? ==> RangePorts(a, b).value == Range(NumeralValue(a), NumeralValue(b) + 1)
    ensures RangePorts(a, b) == Err(StartAfterEnd) <==>
      IsNumeral(a) && NumeralValue(a) <= U16_MAX && IsNumeral(b) && NumeralValue(b) <= U16_MAX
      && NumeralValue(a) > NumeralValue(b)
    ensures RangePorts(a, b) != Err(InvalidRangeFormat) && RangePorts(a, b) != Err(NoValidPorts)
  {
    ParseU16Correct(a);
    ParseU16Correct(b);
  }

  /** Once the collected prefix has failed, later tokens cannot change the error. */
  lemma {:induction false} CollectStopsAtError(ts: seq<string>, i: nat)
    requires i <= |ts| && Collect(ts[..i]).Err?
    ensures Collect(ts) == Collect(ts[..i])
    decreases |ts|
  {
    if i < |ts| {
      var front := ts[..|ts| - 1];
      assert front[..i] == ts[..i];
      CollectStopsAtError(front, i);
    } else {
      assert ts[..i] == ts;
    }
  }

  predicate AllWellFormed(ts: seq<string>) {
    forall k :: 0 <= k < |ts| ==> WellFormedToken(ts[k])
  }

  /** Some token of `ts` names port `p`. */
  predicate Covered(ts: seq<string>, p: int) {
    exists k :: 0 <= k < |ts| && CoversPort(ts[k], p)
  }

  lemma CoveredSnoc(front: seq<string>, last: string, p: int)
    ensures Covered(front + [last], p) <==> Covered(front, p) || CoversPort(last, p)
  {
    var ts := front + [last];
    if Covered(ts, p) {
      var k :| 0 <= k < |ts| && CoversPort(ts[k], p);
      if k < |front| {
        assert CoversPort(front[k], p);
      }
    }
    if Covered(front, p) {
      var k :| 0 <= k < |front| && CoversPort(front[k], p);
      assert CoversPort(ts[k], p);
    }
    if CoversPort(last, p) {
      assert CoversPort(ts[|front|], p);
    }
  }

  /** Collection succeeds iff every token is well formed, and then holds exactly the covered ports. */
  lemma {:induction false} CollectCorrect(ts: seq<string>)
    ensures Collect(ts).Ok? <==> AllWellFormed(ts)
    ensures Collect(ts).Ok? ==> forall p :: p in Collect(ts).value <==> Covered(ts, p)
  {
    if ts != [] {
      var front := ts[..|ts| - 1];
      var last := ts[|ts| - 1];
      assert ts == front + [last];
      CollectCorrect(front);
      TokenPortsCorrect(last);
      assert AllWellFormed(ts) <==> AllWellFormed(front) && WellFormedToken(last);
      if Collect(ts).Ok? {
        forall p ensures p in Collect(ts).value <==> Covered(ts, p) {
          CoveredSnoc(front, last, p);
        }
      }
    }
  }

  /** When a token is ill formed, the error is that of the first ill-formed token. */
  lemma {:induction false} CollectFirstError(ts: seq<string>, k: nat)
    requires k < |ts| && !WellFormedToken(ts[k])
    requires forall j :: 0 <= j < k ==> WellFormedToken(ts[j])
    ensures TokenPorts(ts[k]).Err?
    ensures Collect(ts) == Err(TokenPorts(ts[k]).error)
  {
    var pre := ts[..k];
    var upto := ts[..k + 1];
    assert forall j :: 0 <= j < |pre| ==> pre[j] == ts[j];
    CollectCorrect(pre);
    TokenPortsCorrect(ts[k]);
    assert upto[..k] == pre;
    CollectStopsAtError(ts, k + 1);
  }

  /** On success the ports are strictly ascending (hence distinct), non-empty and never 0. */
  lemma ParsedPortsAscending(s: string)
    ensures ParsePortsSpec(s).Ok? ==>
      var ps := ParsePortsSpec(s).value;
      StrictlyIncreasing(ps) && ps != [] && 0 !in ps
      && (forall k :: 0 <= k < |ps| ==> 1 <= ps[k] <= U16_MAX)
      && (forall i, j :: 0 <= i < |ps| && 0 <= j < |ps| && ps[i] == ps[j] ==> i == j)
  {
    var ts := Tokens(s);
    CollectCorrect(ts);
    if ParsePortsSpec(s).Ok? {
      var ps := ParsePortsSpec(s).value;
      StrictlyIncreasingIsDistinct(ps);
      forall k | 0 <= k < |ps| ensures 1 <= ps[k] <= U16_MAX {
        assert ps[k] in Collect(ts).value;
        var j :| 0 <= j < |ts| && CoversPort(ts[j], ps[k]);
      }
    }
  }

  /** A port is in the result iff it is not 0 and some token names it. */
  lemma ParsedPortsMembership(s: string, p: int)
    requires ParsePortsSpec(s).Ok?
    ensures p in ParsePortsSpec(s).value <==> p != 0 && Covered(Tokens(s), p)
  {
    CollectCorrect(Tokens(s));
  }

  /** `parse_ports` succeeds iff every token is well formed and some token names a port other than 0. */
  lemma ParseSucceedsIff(s: string)
    ensures ParsePortsSpec(s).Ok? <==>
      AllWellFormed(Tokens(s)) && exists p :: p != 0 && Covered(Tokens(s), p)
  {
    var ts := Tokens(s);
    CollectCorrect(ts);
    if Collect(ts).Ok? {
      var v := Collect(ts).value;
      if exists p :: p != 0 && Covered(ts, p) {
        var p :| p != 0 && Covered(ts, p);
        assert p in v;
        assert Finalize(v).Ok?;
      }
      if Finalize(v).Ok? {
        var x := Finalize(v).value[0];
        assert x in v && x != 0;
        assert Covered(ts, x);
      }
    }
  }

  /** The call fails, with that token's error, at the first ill-formed token; no ports are returned. */
  lemma ParseFailsAtFirstBadToken(s: string, k: nat)
    requires k < |Tokens(s)| && !WellFormedToken(Tokens(s)[k])
    requires forall j :: 0 <= j < k ==> WellFormedToken(Tokens(s)[j])
    ensures TokenPorts(Tokens(s)[k]).Err?
    ensures ParsePortsSpec(s) == Err(TokenPorts(Tokens(s)[k]).error)
  {
    CollectFirstError(Tokens(s), k);
  }

  /** With every token well formed but no port other than 0 named, the error is `NoValidPorts`. */
  lemma ParseFailsWhenNoPorts(s: string)
    requires AllWellFormed(Tokens(s))
    requires forall p :: Covered(Tokens(s), p) ==> p == 0
    ensures ParsePortsSpec(s) == Err(NoValidPorts)
  {
    ParseSucceedsIff(s);
    CollectCorrect(Tokens(s));
  }

  /** `parse_ports` as the Rust code runs it: a loop over the pieces, pushing ports, then sort, dedup, retain. */
  method ParsePorts(s: string) returns (r: Result<seq<int>, ParseError>)
    ensures r == ParsePortsSpec(s)
    ensures r.Ok? ==> StrictlyIncreasing(r.value) && r.value != [] && 0 !in r.value
  {
    var parts := Split(s, ',');
    ghost var ts := Tokens(s);
    TokensLength(s);
    var v: seq<int> := [];
    for k := 0 to |parts|
      invariant Collect(ts[..k]) == Ok(v)
    {
      var part := Trim(parts[k]);
      TokenAt(s, k);
      var next := PushToken(v, part);
      CollectStep(ts, k, v);
      if next.Err? {
        r := Err(next.error);
        CollectStopsAtError(ts, k + 1);
        return;
      }
      v := next.value;
    }
    assert ts[..|parts|] == ts;
    ghost var collected := v;
    v := Sort(v);
    v := Dedup(v);
    v := RetainNonZero(v);
    assert v == RetainNonZero(Dedup(Sort(collected)));
    if v == [] {
      r := Err(NoValidPorts);
    } else {
      r := Ok(v);
    }
    assert Finalize(collected) == r;
  }

  lemma TokensLength(s: string)
    ensures |Tokens(s)| == |Split(s, ',')|
  {
  }

  lemma TokenAt(s: string, k: nat)
    requires k < |Split(s, ',')|
    ensures k < |Tokens(s)| && Tokens(s)[k] == Trim(Split(s, ',')[k])
  {
  }

  /** One more token extends what `Collect` gathered, or turns it into that token's error. */
  lemma CollectStep(ts: seq<string>, k: nat, v: seq<int>)
    requires k < |ts| && Collect(ts[..k]) == Ok(v)
    ensures TokenPorts(ts[k]).Err? ==> Collect(ts[..k + 1]) == Err(TokenPorts(ts[k]).error)
    ensures TokenPorts(ts[k]).Ok? ==> Collect(ts[..k + 1]) == Ok(v + TokenPorts(ts[k]).value)
  {
    assert ts[..k + 1][..k] == ts[..k];
  }

  /**
   * One pass of the loop over the comma-separated pieces: skip an empty
   * token, expand a range onto `v`, or push a single port; or fail.
   */
  method PushToken(v: seq<int>, part: string) returns (r: Result<seq<int>, ParseError>)
    ensures TokenPorts(part).Err? ==> r == Err(TokenPorts(part).error)
    ensures TokenPorts(part).Ok? ==> r == Ok(v + TokenPorts(part).value)
  {
    if part == [] {
      assert v + [] == v;
      return Ok(v);
    }
    if '-' in part {
      var nums := Split(part, '-');
      if |nums| != 2 {
        return Err(InvalidRangeFormat);
      }
      var start := ParseU16(nums[0]);
      if start.Err? {
        return Err(InvalidPort(start.error));
      }
      var end := ParseU16(nums[1]);
      if end.Err? {
        return Err(InvalidPort(end.error));
      }
      if start.value > end.value {
        return Err(StartAfterEnd);
      }
      var w := v;
      for i := start.value to end.value + 1
        invariant w == v + Range(start.value, i)
      {
        assert Range(start.value, i + 1) == Range(start.value, i) + [i];
        w := w + [i];
      }
      return Ok(w);
    }
    var n := ParseU16(part);
    if n.Err? {
      return Err(InvalidPort(n.error));
    }
    return Ok(v + [n.value]);
  }

  // ---- Worked examples ----

  /** A specification with a single token parses as that token alone. */
  lemma CollectSingle(t: string)
    ensures Collect([t]) == TokenPorts(t)
  {
    assert [t][..0] == [];
    if TokenPorts(t).Ok? {
      assert [] + TokenPorts(t).value == TokenPorts(t).value;
    }
  }

  /** A specification without commas or surrounding whitespace is a single token. */
  lemma SingleTokenSpec(t: string)
    requires ',' !in t
    requires t == [] || (!IsWhitespace(t[0]) && !IsWhitespace(t[|t| - 1]))
    ensures TokenPorts(t).Err? ==> ParsePortsSpec(t) == Err(TokenPorts(t).error)
    ensures TokenPorts(t).Ok? ==> ParsePortsSpec(t) == Finalize(TokenPorts(t).value)
  {
    SplitPiece(t, ',');
    TrimUnchanged(t);
    assert Tokens(t) == [t];
    CollectSingle(t);
  }

  /** An empty specification names no port. */
  lemma EmptySpecExample()
    ensures ParsePortsSpec("") == Err(NoValidPorts)
  {
    SingleTokenSpec("");
    assert Finalize([]).Err?;
  }

  /** A token that is not a number fails with the digit error of `u16::from_str`. */
  lemma NotANumberExample()
    ensures ParsePortsSpec("abc") == Err(InvalidPort(InvalidDigit))
  {
    var t := "abc";
    assert t[0] == 'a' && t[2] == 'c';
    assert ',' !in t && '-' !in t;
    LeadingNonDigit(t);
    SingleTokenSpec(t);
  }

  /** A token with two dashes is not a range. */
  lemma TwoDashesExample()
    ensures ParsePortsSpec("1-2-3") == Err(InvalidRangeFormat)
  {
    var t := "1-2-3";
    assert t[0] == '1' && t[4] == '3';
    assert ',' !in t;
    assert Occurrences(t, '-') == 2;
    TokenPortsCorrect(t);
    SingleTokenSpec(t);
  }

  /** Port 0 is dropped, and a specification naming only port 0 fails. */
  lemma PortZeroExample()
    ensures ParsePortsSpec("0") == Err(NoValidPorts)
  {
    var t := "0";
    assert ',' !in t && '-' !in t;
    assert ParseU16(t) == Ok(0);
    assert TokenPorts(t) == Ok([0]);
    SingleTokenSpec(t);
    assert Finalize([0]).Err?;
  }

  /** A single port parses to itself. */
  lemma SinglePortExample()
    ensures ParsePortsSpec("7") == Ok([7])
  {
    var t := "7";
    assert ',' !in t && '-' !in t;
    assert ParseU16(t) == Ok(7);
    assert TokenPorts(t) == Ok([7]);
    SingleTokenSpec(t);
    var r := Finalize([7]);
    assert r.Ok?;
    assert forall x :: x in r.value ==> x == 7;
    assert r.value == [r.value[0]];
  }

  /** A range whose start exceeds its end fails. */
  lemma InvertedRangeExample()
    ensures ParsePortsSpec("9-1") == Err(StartAfterEnd)
  {
    var t := "9-1";
    assert ',' !in t;
    InvertedRangeToken();
    SingleTokenSpec(t);
  }

  lemma InvertedRangeToken()
    ensures TokenPorts("9-1") == Err(StartAfterEnd)
  {
    var t := "9-1";
    assert t == "9" + ['-'] + "1";
    SplitPiece("1", '-');
    SplitPrefix("9", "1", '-');
    RangeTokenPair(t, "9", "1");
    assert ParseU16("9") == Ok(9) && ParseU16("1") == Ok(1);
  }
}
