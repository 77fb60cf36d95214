/** `parse_input(input_str, max_value)`: the playlist selection expression,
    such as "1,3,5-7", read into an ascending list of 1-based indices. */
module Selection {
  import opened PyBuiltins

  /** A part that holds a hyphen but does not unpack into two integers: the
      `start, end = map(int, part.split('-'))` assignment raises ValueError. */
  predicate MalformedRange(part: string)
  {
    '-' in part &&
    var pieces := Split(part, '-');
    |pieces| != 2 || ParseInt(pieces[0]).None? || ParseInt(pieces[1]).None?
  }

  /** `range(start, end + 1)` as a set. */
  function Range(start: int, end: int): (r: set<int>)
    ensures forall i :: i in r <==> start <= i <= end
    decreases end - start
  {
    if start > end then {} else {start} + Range(start + 1, end)
  }

  /** The indices one comma-separated part adds to the set. */
  function PartIndices(part: string, maxValue: int): (r: Result<set<int>>)
    ensures r.ValueError? <==> MalformedRange(part)
    ensures r.Ok? ==> forall i :: i in r.value ==> 1 <= i <= maxValue
  {
    if '-' in part then
      var pieces := Split(part, '-');
      if |pieces| != 2 then ValueError
      else
        match (ParseInt(pieces[0]), ParseInt(pieces[1]))
        case (Some(start), Some(end)) =>
          Ok(if start <= end && start >= 1 && end <= maxValue then Range(start, end) else {})
        case _ => ValueError
    else
      match ParseInt(part)
      case Some(index) => Ok(if 1 <= index <= maxValue then {index} else {})
      case None => Ok({})
  }

  /** What each comma-separated part contributes, in order. */
  function Contributions(parts: seq<string>, maxValue: int): (r: seq<Result<set<int>>>)
    ensures |r| == |parts|
  {
    seq(|parts|, k requires 0 <= k < |parts| => PartIndices(parts[k], maxValue))
  }

  /** The set the loop accumulates from the contributions; ValueError as soon
      as one of them raises. */
  function Union(rs: seq<Result<set<int>>>): Result<set<int>>
  {
    if rs == [] then Ok({})
    else
      match Union(rs[..|rs| - 1])
      case ValueError => ValueError
      case Ok(acc) =>
        match rs[|rs| - 1]
        case ValueError => ValueError
        case Ok(more) => Ok(acc + more)
  }

  function Collect(parts: seq<string>, maxValue: int): Result<set<int>>
  {
    Union(Contributions(parts, maxValue))
  }

  predicate StrictlyAscending(s: seq<int>)
  {
    forall i, j :: 0 <= i < j < |s| ==> s[i] < s[j]
  }

  /** The members of `s` between `lo` and `hi`, in ascending order. */
  function Ascending(s: set<int>, lo: int, hi: int): (r: seq<int>)
    ensures StrictlyAscending(r)
    ensures forall x :: x in r <==> x in s && lo <= x <= hi
    decreases hi - lo
  {
    if lo > hi then []
    else
      var rest := Ascending(s, lo + 1, hi);
      if lo in s then
        var r := [lo] + rest;
        assert StrictlyAscending(r) by {
          forall i, j | 0 <= i < j < |r| ensures r[i] < r[j] {
            assert r[j] == rest[j - 1] && rest[j - 1] in rest;
            if i > 0 { assert r[i] == rest[i - 1]; }
          }
        }
        r
      else rest
  }

  /** What `parse_input` returns: `sorted(indices)`, or ValueError. */
  function Parse(input: string, maxValue: int): (r: Result<seq<int>>)
    ensures r.Ok? ==> StrictlyAscending(r.value)
    ensures r.Ok? ==> forall i :: i in r.value ==> 1 <= i <= maxValue
  {
    match Collect(Split(input, ','), maxValue)
    case ValueError => ValueError
    case Ok(indices) => Ok(Ascending(indices, 1, maxValue))
  }

  /** Once a prefix of the contributions raises, every longer prefix raises. */
  lemma {:induction false} UnionRaisedExtends(rs: seq<Result<set<int>>>, i: nat, j: nat)
    requires i <= j <= |rs|
    requires Union(rs[..i]).ValueError?
    ensures Union(rs[..j]).ValueError?
    decreases j - i
  {
    if i < j {
      assert rs[..i + 1][..i] == rs[..i];
      UnionRaisedExtends(rs, i + 1, j);
    }
  }

  /** One more contribution: the loop's set grows by it, or the loop raises. */
  lemma UnionStep(rs: seq<Result<set<int>>>, i: nat)
    requires i < |rs| && Union(rs[..i]).Ok?
    ensures Union(rs[..i + 1]) ==
      match rs[i]
      case ValueError => ValueError
      case Ok(more) => Ok(Union(rs[..i]).value + more)
  {
    assert rs[..i + 1][..i] == rs[..i];
  }

  lemma RaiseOut(rs: seq<Result<set<int>>>, i: nat)
    requires i < |rs| && rs[i].ValueError?
    ensures Union(rs).ValueError?
  {
    UnionRaises(rs);
  }

  method ParseInput(input: string, maxValue: int) returns (r: Result<seq<int>>)
    ensures r == Parse(input, maxValue)
  {
    var indices: set<int> := {};
    var parts := Split(input, ',');
    ghost var rs := Contributions(parts, maxValue);
    for i := 0 to |parts|
      invariant Union(rs[..i]) == Ok(indices)
    {
      UnionStep(rs, i);
      ghost var before := indices;
      var part := parts[i];
      assert rs[i] == PartIndices(part, maxValue);
      if '-' in part {
        var pieces := Split(part, '-');
        if |pieces| != 2 {
          RaiseOut(rs, i);
          return ValueError;
        }
        var start := ParseInt(pieces[0]);
        var end := ParseInt(pieces[1]);
        if start.None? || end.None? {
          RaiseOut(rs, i);
          return ValueError;
        }
        assert PartIndices(part, maxValue) ==
          Ok(if start.value <= end.value && start.value >= 1 && end.value <= maxValue
             then Range(start.value, end.value) else {});
        if start.value <= end.value && start.value >= 1 && end.value <= maxValue {
          indices := indices + Range(start.value, end.value);
        }
      } else {
        var index := ParseInt(part);
        assert PartIndices(part, maxValue) ==
          Ok(if index.Some? && 1 <= index.value <= maxValue then {index.value} else {});
        if index.Some? && 1 <= index.value <= maxValue {
          indices := indices + {index.value};
        }
      }
      assert indices == before + rs[i].value;
    }
    assert rs[..|parts|] == rs;
    r := Ok(Ascending(indices, 1, maxValue));
  }

  // -----------------------------------------------------------------------
  // What the parse result means, part by part

  /** The accumulated set is exactly the union of the contributions. */
  lemma {:induction false} UnionMembers(rs: seq<Result<set<int>>>, x: int)
    requires Union(rs).Ok?
    ensures x in Union(rs).value <==> exists k :: 0 <= k < |rs| && rs[k].Ok? && x in rs[k].value
    decreases |rs|
  {
    if rs != [] {
      var prefix := rs[..|rs| - 1];
      UnionMembers(prefix, x);
      assert forall k :: 0 <= k < |prefix| ==> prefix[k] == rs[k];
    }
  }

  /** The accumulation raises exactly when some contribution raises. */
  lemma {:induction false} UnionRaises(rs: seq<Result<set<int>>>)
    ensures Union(rs).ValueError? <==> exists k :: 0 <= k < |rs| && rs[k].ValueError?
    decreases |rs|
  {
    if rs != [] {
      var prefix := rs[..|rs| - 1];
      UnionRaises(prefix);
      assert forall k :: 0 <= k < |prefix| ==> prefix[k] == rs[k];
    }
  }

  /** An index is selected exactly when some comma-separated part yields it,
      and the parse raises exactly when some part is a malformed range. */
  lemma ParseMeaning(input: string, maxValue: int, x: int)
    ensures var parts := Split(input, ',');
      Parse(input, maxValue).ValueError? <==> exists k :: 0 <= k < |parts| && MalformedRange(parts[k])
    ensures var parts := Split(input, ',');
      Parse(input, maxValue).Ok? ==>
        (x in Parse(input, maxValue).value <==>
         exists k :: 0 <= k < |parts| && PartIndices(parts[k], maxValue).Ok? && x in PartIndices(parts[k], maxValue).value)
  {
    var parts := Split(input, ',');
    var rs := Contributions(parts, maxValue);
    assert forall k :: 0 <= k < |parts| ==> rs[k] == PartIndices(parts[k], maxValue);
    UnionRaises(rs);
    if Union(rs).Ok? {
      UnionMembers(rs, x);
    }
  }
}
