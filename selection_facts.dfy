/** What `parse_input` yields for the forms of text the import prompt suggests:
    single numbers, ranges, and the malformed parts that make it raise. */
module SelectionFacts {
  import opened PyBuiltins
  import opened Selection

  /** `list(range(lo, hi + 1))` */
  function Interval(lo: int, hi: int): (r: seq<int>)
    ensures |r| == if lo <= hi then hi - lo + 1 else 0
    ensures forall k :: 0 <= k < |r| ==> r[k] == lo + k
    decreases hi - lo
  {
    if lo > hi then [] else [lo] + Interval(lo + 1, hi)
  }

  /** Two strictly ascending sequences with the same members are equal: the
      ascending order of a set is unique, so the parse result is `sorted(...)`. */
  lemma {:induction false} AscendingUnique(s: seq<int>, t: seq<int>)
    requires StrictlyAscending(s) && StrictlyAscending(t)
    requires forall x :: x in s <==> x in t
    ensures s == t
    decreases |s|
  {
    assert s != [] ==> s[0] in s;
    assert t != [] ==> t[0] in t;
    if s != [] {
      SameHead(s, t);
      SameTail(s, t);
      AscendingUnique(s[1..], t[1..]);
      assert s == [s[0]] + s[1..] && t == [t[0]] + t[1..];
    }
  }

  /** The least members agree. */
  lemma SameHead(s: seq<int>, t: seq<int>)
    requires StrictlyAscending(s) && StrictlyAscending(t)
    requires forall x :: x in s <==> x in t
    requires s != [] && t != []
    ensures s[0] == t[0]
  {
    assert s[0] in s && t[0] in t;
    var i :| 0 <= i < |s| && s[i] == t[0];
    var j :| 0 <= j < |t| && t[j] == s[0];
    assert s[0] <= s[i] && t[0] <= t[j];
  }

  /** With the least member removed the members still agree. */
  lemma SameTail(s: seq<int>, t: seq<int>)
    requires StrictlyAscending(s) && StrictlyAscending(t)
    requires forall x :: x in s <==> x in t
    requires s != [] && t != [] && s[0] == t[0]
    ensures StrictlyAscending(s[1..]) && StrictlyAscending(t[1..])
    ensures forall x :: x in s[1..] <==> x in t[1..]
  {
    forall x | x in s[1..] ensures x in t[1..] { TailMember(s, t, x); }
    forall x | x in t[1..] ensures x in s[1..] { TailMember(t, s, x); }
  }

  lemma TailMember(s: seq<int>, t: seq<int>, x: int)
    requires StrictlyAscending(s) && StrictlyAscending(t)
    requires forall y :: y in s <==> y in t
    requires s != [] && t != [] && s[0] == t[0] && x in s[1..]
    ensures x in t[1..]
  {
    var i :| 0 <= i < |s| - 1 && s[1..][i] == x;
    assert s[i + 1] == x && s[0] < x;
    assert x in t;
    var j :| 0 <= j < |t| && t[j] == x;
    assert j != 0;
    assert t[1..][j - 1] == x;
  }

  /** The sorted list of a set of indices that lie in [1, maxValue]. */
  lemma SortedIs(indices: set<int>, maxValue: int, t: seq<int>)
    requires StrictlyAscending(t)
    requires forall x :: x in t <==> x in indices && 1 <= x <= maxValue
    ensures Ascending(indices, 1, maxValue) == t
  {
    AscendingUnique(Ascending(indices, 1, maxValue), t);
  }

  lemma IntervalAscending(lo: int, hi: int)
    ensures StrictlyAscending(Interval(lo, hi))
    ensures forall x :: x in Interval(lo, hi) <==> lo <= x <= hi
  {
    var r := Interval(lo, hi);
    forall x | lo <= x <= hi ensures x in r { assert r[x - lo] == x; }
  }

  /** A single number `str(i)` selects exactly index `i` when it is in range,
      and nothing otherwise. */
  lemma SingleNumber(i: nat, maxValue: int)
    ensures Parse(Str(i), maxValue) == Ok(if 1 <= i <= maxValue then [i] else [])
  {
    var s := Str(i);
    NatStrChars(i);
    SplitFree(s, ',');
    ParseIntStr(i);
    var indices: set<int> := if 1 <= i <= maxValue then {i} else {};
    var rs := Contributions([s], maxValue);
    assert rs == [Ok(indices)];
    assert rs[..0] == [];
    assert {} + indices == indices;
    assert Union(rs) == Ok(indices);
    SortedIs(indices, maxValue, if 1 <= i <= maxValue then [i] else []);
  }

  /** The text `str(a)-str(b)` splits at its one hyphen into the two numbers. */
  lemma RangeSplit(a: nat, b: nat)
    ensures Split(Str(a) + "-" + Str(b), '-') == [Str(a), Str(b)]
    ensures '-' in Str(a) + "-" + Str(b) && ',' !in Str(a) + "-" + Str(b)
  {
    var sa, sb := Str(a), Str(b);
    var s := sa + "-" + sb;
    NatStrChars(a);
    NatStrChars(b);
    assert s == Join([sa, sb], '-');
    SplitJoin([sa, sb], '-');
    assert s[|sa|] == '-';
    forall k | 0 <= k < |s| ensures s[k] != ',' {
      if k < |sa| { assert s[k] == sa[k]; }
      else if k > |sa| { assert s[k] == sb[k - |sa| - 1]; }
    }
  }

  /** The part `str(a)-str(b)` contributes a..b when 1 <= a <= b <= maxValue. */
  lemma RangePart(a: nat, b: nat, maxValue: int)
    ensures PartIndices(Str(a) + "-" + Str(b), maxValue) ==
      Ok(if 1 <= a <= b <= maxValue then Range(a, b) else {})
  {
    RangeSplit(a, b);
    ParseIntStr(a);
    ParseIntStr(b);
  }

  /** A single part `str(i)` contributes `i` when it is in range. */
  lemma SinglePart(i: nat, maxValue: int)
    ensures PartIndices(Str(i), maxValue) == Ok(if 1 <= i <= maxValue then {i} else {})
  {
    NatStrChars(i);
    ParseIntStr(i);
  }

  /** Text that consists of one part is that part's contribution, sorted. */
  lemma OnePart(s: string, maxValue: int)
    requires ',' !in s && PartIndices(s, maxValue).Ok?
    ensures Parse(s, maxValue) == Ok(Ascending(PartIndices(s, maxValue).value, 1, maxValue))
  {
    SplitFree(s, ',');
    var rs := Contributions([s], maxValue);
    assert rs == [PartIndices(s, maxValue)];
    assert rs[..0] == [];
    assert Union(rs[..0]) == Ok({});
    assert {} + PartIndices(s, maxValue).value == PartIndices(s, maxValue).value;
    assert Union(rs) == Ok(PartIndices(s, maxValue).value);
    assert Split(s, ',') == [s];
  }

  /** A range `str(a)-str(b)` selects exactly a..b when 1 <= a <= b <= maxValue,
      and nothing otherwise (neither clipped nor partly applied). */
  lemma RangeText(a: nat, b: nat, maxValue: int)
    ensures Parse(Str(a) + "-" + Str(b), maxValue) ==
      Ok(if 1 <= a <= b <= maxValue then Interval(a, b) else [])
  {
    var s := Str(a) + "-" + Str(b);
    RangeSplit(a, b);
    RangePart(a, b, maxValue);
    OnePart(s, maxValue);
    IntervalAscending(a, b);
    var ok := 1 <= a <= b <= maxValue;
    SortedIs(if ok then Range(a, b) else {}, maxValue, if ok then Interval(a, b) else []);
  }

  /** Selecting `1-n` on `n` playlists is the same as selecting `all`. */
  lemma FullRangeIsAll(n: nat)
    requires n >= 1
    ensures Parse("1-" + Str(n), n) == Ok(Interval(1, n))
  {
    var one, tail := Str(1), Str(n);
    RangeText(1, n, n);
    assert one == ['1'] by { assert NatStr(1) == [DigitChar(1)]; }
    assert "1-" == one + "-";
    assert "1-" + tail == one + "-" + tail;
  }

  /** Text made of comma-free parts is parsed part by part. */
  lemma ParseOfParts(parts: seq<string>, maxValue: int)
    requires |parts| >= 1 && forall k :: 0 <= k < |parts| ==> ',' !in parts[k]
    ensures Parse(Join(parts, ','), maxValue) ==
      match Union(Contributions(parts, maxValue))
      case ValueError => ValueError
      case Ok(indices) => Ok(Ascending(indices, 1, maxValue))
  {
    SplitJoin(parts, ',');
  }

  /** Union of a single contribution that does not raise. */
  lemma UnionOfOne(a: set<int>)
    ensures Union([Ok(a)]) == Ok(a)
  {
    var rs := [Ok(a)];
    assert rs[..0] == [];
    assert {} + a == a;
  }

  lemma UnionOfTwo(a: set<int>, b: set<int>)
    ensures Union([Ok(a), Ok(b)]) == Ok(a + b)
  {
    var rs := [Ok(a), Ok(b)];
    assert rs[..1] == [Ok(a)];
    UnionOfOne(a);
  }

  lemma UnionOfThree(a: set<int>, b: set<int>, c: set<int>)
    ensures Union([Ok(a), Ok(b), Ok(c)]) == Ok(a + b + c)
  {
    var rs := [Ok(a), Ok(b), Ok(c)];
    assert rs[..2] == [Ok(a), Ok(b)];
    UnionOfTwo(a, b);
  }

  /** Two comma-separated parts: the union of their contributions, sorted. */
  lemma TwoParts(p: string, q: string, maxValue: int)
    requires ',' !in p && ',' !in q
    requires PartIndices(p, maxValue).Ok? && PartIndices(q, maxValue).Ok?
    ensures Parse(p + "," + q, maxValue) ==
      Ok(Ascending(PartIndices(p, maxValue).value + PartIndices(q, maxValue).value, 1, maxValue))
  {
    var parts := [p, q];
    assert p + "," + q == Join(parts, ',');
    ParseOfParts(parts, maxValue);
    var rs := Contributions(parts, maxValue);
    assert rs == [PartIndices(p, maxValue), PartIndices(q, maxValue)];
    UnionOfTwo(PartIndices(p, maxValue).value, PartIndices(q, maxValue).value);
  }

  lemma JoinThree(p: string, q: string, u: string)
    ensures p + "," + q + "," + u == Join([p, q, u], ',')
  {
    var parts := [p, q, u];
    assert parts[1..] == [q, u] && parts[1..][1..] == [u];
    assert Join([q, u], ',') == q + [','] + u;
  }

  lemma ContributionsOfThree(p: string, q: string, u: string, maxValue: int)
    requires PartIndices(p, maxValue).Ok? && PartIndices(q, maxValue).Ok? && PartIndices(u, maxValue).Ok?
    ensures Contributions([p, q, u], maxValue) ==
      [Ok(PartIndices(p, maxValue).value), Ok(PartIndices(q, maxValue).value), Ok(PartIndices(u, maxValue).value)]
  {
    var rs := Contributions([p, q, u], maxValue);
    assert rs[0] == PartIndices(p, maxValue) && rs[1] == PartIndices(q, maxValue) && rs[2] == PartIndices(u, maxValue);
  }

  /** Three comma-separated parts: the union of their contributions, sorted. */
  lemma ThreeParts(p: string, q: string, u: string, maxValue: int)
    requires ',' !in p && ',' !in q && ',' !in u
    requires PartIndices(p, maxValue).Ok? && PartIndices(q, maxValue).Ok? && PartIndices(u, maxValue).Ok?
    ensures Parse(p + "," + q + "," + u, maxValue) ==
      Ok(Ascending(PartIndices(p, maxValue).value + PartIndices(q, maxValue).value +
                   PartIndices(u, maxValue).value, 1, maxValue))
  {
    var parts := [p, q, u];
    JoinThree(p, q, u);
    ParseOfParts(parts, maxValue);
    var a, b, c := PartIndices(p, maxValue), PartIndices(q, maxValue), PartIndices(u, maxValue);
    ContributionsOfThree(p, q, u, maxValue);
    UnionOfThree(a.value, b.value, c.value);
  }

  lemma SmallNumbers()
    ensures Str(0) == "0" && Str(1) == "1" && Str(3) == "3" && Str(5) == "5" && Str(7) == "7"
    ensures Str(11) == "11"
  {
    assert NatStr(0) == [DigitChar(0)];
    assert NatStr(1) == [DigitChar(1)];
    assert NatStr(3) == [DigitChar(3)];
    assert NatStr(5) == [DigitChar(5)];
    assert NatStr(7) == [DigitChar(7)];
    assert NatStr(11) == NatStr(1) + [DigitChar(1)];
  }

  /** The indices of the prompt's example, sorted. */
  lemma PromptSorted()
    ensures Ascending({1} + {3} + Range(5, 7), 1, 10) == [1, 3, 5, 6, 7]
  {
    var all := {1} + {3} + Range(5, 7);
    var t := [1, 3, 5, 6, 7];
    assert StrictlyAscending(t);
    forall x ensures x in t <==> x in all && 1 <= x <= 10 {
    }
    SortedIs(all, 10, t);
  }

  /** The example of the import prompt. */
  lemma PromptExample(text: string)
    requires text == "1,3,5-7"
    ensures Parse(text, 10) == Ok([1, 3, 5, 6, 7])
  {
    SmallNumbers();
    var p, q, u := Str(1), Str(3), Str(5) + "-" + Str(7);
    assert text == p + "," + q + "," + u;
    NatStrChars(1);
    NatStrChars(3);
    SinglePart(1, 10);
    SinglePart(3, 10);
    RangeSplit(5, 7);
    RangePart(5, 7, 10);
    ThreeParts(p, q, u, 10);
    PromptSorted();
  }

  /** A reversed range selects nothing. */
  lemma ReversedRangeExample(text: string)
    requires text == "5-3"
    ensures Parse(text, 10) == Ok([])
  {
    RangeText(5, 3, 10);
    SmallNumbers();
    assert text == Str(5) + "-" + Str(3);
  }

  /** Out-of-range numbers select nothing. */
  lemma OutOfRangeExample(text: string)
    requires text == "0,11"
    ensures Parse(text, 10) == Ok([])
  {
    SmallNumbers();
    var p, q := Str(0), Str(11);
    assert text == p + "," + q;
    NatStrChars(0);
    NatStrChars(11);
    SinglePart(0, 10);
    SinglePart(11, 10);
    TwoParts(p, q, 10);
    var e: set<int> := {};
    assert e + e == e;
    SortedIs({}, 10, []);
  }

  /** Empty text selects nothing. */
  lemma EmptyExample()
    ensures Parse("", 10) == Ok([])
  {
    ParseIntEmpty();
    assert PartIndices("", 10) == Ok({});
    OnePart("", 10);
    SortedIs({}, 10, []);
  }

  /** A text whose one part is a malformed range makes the whole call raise. */
  lemma RaisesOn(s: string, maxValue: int)
    requires ',' !in s && MalformedRange(s)
    ensures Parse(s, maxValue) == ValueError
  {
    SplitFree(s, ',');
    ParseMeaning(s, maxValue, 0);
    assert Split(s, ',')[0] == s;
  }

  /** A hyphenated part that is not two integers makes the whole call raise:
      the word "all" with a suffix, ... */
  lemma RaisesOnWord(text: string)
    requires text == "all-ish"
    ensures Parse(text, 5) == ValueError
  {
    var a, b := "all", "ish";
    assert text == Join([a, b], '-');
    SplitJoin([a, b], '-');
    ParseIntNotNumber(a);
    RaisesOn(text, 5);
  }

  /** ... a range without its end ... */
  lemma RaisesOnOpenEnd(text: string)
    requires text == "5-"
    ensures Parse(text, 5) == ValueError
  {
    var a, b := "5", "";
    assert text == Join([a, b], '-');
    SplitJoin([a, b], '-');
    ParseIntEmpty();
    RaisesOn(text, 5);
  }

  /** ... a negative number ... */
  lemma RaisesOnNegative(text: string)
    requires text == "-3"
    ensures Parse(text, 5) == ValueError
  {
    var a, b := "", "3";
    assert text == Join([a, b], '-');
    SplitJoin([a, b], '-');
    ParseIntEmpty();
    RaisesOn(text, 5);
  }

  /** ... and a part with two hyphens. */
  lemma RaisesOnTwoHyphens(text: string)
    requires text == "1-2-3"
    ensures Parse(text, 5) == ValueError
  {
    var a, b, c := "1", "2", "3";
    assert Join([a, b, c], '-') == a + ['-'] + Join([b, c], '-');
    assert Join([b, c], '-') == b + ['-'] + Join([c], '-');
    assert text == Join([a, b, c], '-');
    SplitJoin([a, b, c], '-');
    RaisesOn(text, 5);
  }

  /** No comma-separated part raises or adds an index. */
  predicate NoPartSelects(input: string, maxValue: int)
  {
    var parts := Split(input, ',');
    forall k :: 0 <= k < |parts| ==> PartIndices(parts[k], maxValue) == Ok({})
  }

  /** The selection is empty exactly when no part raises and no part adds an
      index: empty text, words, out-of-range numbers and reversed or
      out-of-range ranges, in any mix. */
  lemma NothingSelected(input: string, maxValue: int)
    ensures Parse(input, maxValue) == Ok([]) <==> NoPartSelects(input, maxValue)
  {
    if NoPartSelects(input, maxValue) {
      EmptyPartsSelectNothing(input, maxValue);
    }
    if Parse(input, maxValue) == Ok([]) {
      EmptySelectionParts(input, maxValue);
    }
  }

  lemma EmptyPartsSelectNothing(input: string, maxValue: int)
    requires NoPartSelects(input, maxValue)
    ensures Parse(input, maxValue) == Ok([])
  {
    var r := Parse(input, maxValue);
    ParseMeaning(input, maxValue, 0);
    assert r.Ok?;
    forall x ensures x !in r.value {
      ParseMeaning(input, maxValue, x);
    }
    NoMembersEmpty(r.value);
  }

  lemma EmptySelectionParts(input: string, maxValue: int)
    requires Parse(input, maxValue) == Ok([])
    ensures NoPartSelects(input, maxValue)
  {
    var parts := Split(input, ',');
    forall k | 0 <= k < |parts| ensures PartIndices(parts[k], maxValue) == Ok({}) {
      EmptySelectionPart(input, maxValue, k);
    }
  }

  lemma EmptySelectionPart(input: string, maxValue: int, k: nat)
    requires k < |Split(input, ',')| && Parse(input, maxValue) == Ok([])
    ensures PartIndices(Split(input, ',')[k], maxValue) == Ok({})
  {
    var parts := Split(input, ',');
    ParseMeaning(input, maxValue, 0);
    var c := PartIndices(parts[k], maxValue);
    assert c.Ok?;
    forall x | x in c.value ensures false {
      ParseMeaning(input, maxValue, x);
    }
  }

  lemma NoMembersEmpty(s: seq<int>)
    ensures s == [] || s[0] in s
  {
  }
}
