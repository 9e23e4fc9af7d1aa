/** `getTypesFromCompoundName` (cpp/velox/substrait/TypeUtils.cc): the text between
    the first `<` and the last `>` of a compound type name such as
    `ROW<BIGINT,ROW<DOUBLE,BIGINT>>` is cut at every comma where the angle
    brackets seen so far are balanced. */
module CompoundName {
  import opened Results
  import opened Strings

  /** How a character moves the bracket depth. */
  function Delta(c: char): int {
    if c == '<' then 1 else if c == '>' then -1 else 0
  }

  function Count(s: string, c: char): nat {
    if |s| == 0 then 0 else (if s[0] == c then 1 else 0) + Count(s[1..], c)
  }

  /** Number of `<` minus number of `>`. */
  function Depth(s: string): int {
    if |s| == 0 then 0 else Delta(s[0]) + Depth(s[1..])
  }

  /** Positions (offset by `base`) of the commas of `s` met at depth 0, when the
      scan starts at depth `depth`. */
  function TopCommas(s: string, depth: int, base: nat): (ps: seq<nat>)
    decreases |s|
  {
    if |s| == 0 then []
    else (if s[0] == ',' && depth == 0 then [base] else []) + TopCommas(s[1..], depth + Delta(s[0]), base + 1)
  }

  /** The recorded positions are commas of `s`, in increasing order. */
  lemma {:induction false} TopCommasAreCuts(s: string, depth: int, base: nat)
    ensures forall k :: 0 <= k < |TopCommas(s, depth, base)| ==>
      base <= TopCommas(s, depth, base)[k] < base + |s| && s[TopCommas(s, depth, base)[k] - base] == ','
    ensures forall i, j :: 0 <= i < j < |TopCommas(s, depth, base)| ==>
      TopCommas(s, depth, base)[i] < TopCommas(s, depth, base)[j]
    decreases |s|
  {
    if |s| > 0 {
      var rest := TopCommas(s[1..], depth + Delta(s[0]), base + 1);
      TopCommasAreCuts(s[1..], depth + Delta(s[0]), base + 1);
      var head: seq<nat> := if s[0] == ',' && depth == 0 then [base] else [];
      var ps := TopCommas(s, depth, base);
      assert ps == head + rest;
      forall k | 0 <= k < |rest|
        ensures base + 1 <= rest[k] < base + |s| && s[rest[k] - base] == ','
      {
        assert s[1..][rest[k] - (base + 1)] == ',';
      }
    }
  }

  /** A cut list for the whole of `t`. */
  lemma TopCommasCut(t: string)
    ensures Cuts(t, TopCommas(t, 0, 0), 0)
  {
    TopCommasAreCuts(t, 0, 0);
  }

  /** Strictly increasing cut positions inside `t`, none before `start`. */
  predicate Cuts(t: string, ps: seq<nat>, start: nat) {
    && start <= |t|
    && (forall k :: 0 <= k < |ps| ==> start <= ps[k] < |t|)
    && (forall i, j :: 0 <= i < j < |ps| ==> ps[i] < ps[j])
  }

  /** The pieces of `t[start..]` between the cut positions. */
  function Split(t: string, ps: seq<nat>, start: nat): (pieces: seq<string>)
    requires Cuts(t, ps, start)
    ensures |pieces| == |ps| + 1
    ensures forall k :: 0 <= k < |pieces| ==> |pieces[k]| <= |t| - start
    ensures |ps| > 0 ==> forall k :: 0 <= k < |pieces| ==> |pieces[k]| < |t| - start
    decreases |ps|
  {
    if |ps| == 0 then [t[start..]]
    else [t[start..ps[0]]] + Split(t, ps[1..], ps[0] + 1)
  }

  /** The part of `s` that `getTypesFromCompoundName` splits: `substr(l + 1, r - l - 1)`
      with `l` the first `<` and `r` the last `>`, either of which may be `npos`. */
  function CompoundBody(s: string): (body: string)
    ensures |body| <= |s|
    ensures '<' in s ==> |body| < |s|
  {
    var l := FindChar(s, '<');
    Substr(s, After(l), SpanBetween(RFindChar(s, '>'), l))
  }

  /** The field type names `getTypesFromCompoundName` returns. */
  function CompoundFields(s: string): (fields: seq<string>)
    ensures |fields| >= 1
    ensures forall k :: 0 <= k < |fields| ==> |fields[k]| <= |s|
    ensures '<' in s || |fields| > 1 ==> forall k :: 0 <= k < |fields| ==> |fields[k]| < |s|
  {
    var body := CompoundBody(s);
    TopCommasCut(body);
    Split(body, TopCommas(body, 0, 0), 0)
  }

  /** The two loops of `getTypesFromCompoundName`: collect the depth-zero comma
      positions, then cut the body at them. */
  method TypesFromCompoundName(compoundName: string) returns (types: seq<string>)
    ensures types == CompoundFields(compoundName)
  {
    var l := FindChar(compoundName, '<');
    var r := RFindChar(compoundName, '>');
    var typesName := Substr(compoundName, After(l), SpanBetween(r, l));
    var positions := DepthZeroCommas(typesName);
    TopCommasAreCuts(typesName, 0, 0);
    types := CutAt(typesName, positions);
  }

  /** First loop: the bracket counters and the recorded comma positions. */
  method DepthZeroCommas(typesName: string) returns (positions: seq<nat>)
    ensures positions == TopCommas(typesName, 0, 0)
  {
    positions := [];
    var leftNum, rightNum := 0, 0;
    var index := 0;
    assert typesName[index..] == typesName;
    while index < |typesName|
      invariant index <= |typesName|
      invariant positions + TopCommas(typesName[index..], leftNum - rightNum, index) == TopCommas(typesName, 0, 0)
    {
      ghost var depth := leftNum - rightNum;
      ghost var done := positions;
      DepthZeroCommasStep(positions, typesName, index, depth);
      var c := typesName[index];
      if c == '<' {
        leftNum := leftNum + 1;
      }
      if c == '>' {
        rightNum := rightNum + 1;
      }
      assert leftNum - rightNum == depth + Delta(c);
      if c == ',' && rightNum == leftNum {
        positions := positions + [index];
      }
      assert positions == done + if c == ',' && depth == 0 then [index] else [];
      index := index + 1;
    }
    assert typesName[index..] == [];
  }

  /** One turn of the first loop: the comma at `i`, if recorded, joins the
      positions already found, and the scan goes on at the new depth. */
  lemma DepthZeroCommasStep(done: seq<nat>, t: string, i: nat, depth: int)
    requires i < |t|
    ensures var head: seq<nat> := if t[i] == ',' && depth == 0 then [i] else [];
      (done + head) + TopCommas(t[i + 1..], depth + Delta(t[i]), i + 1) == done + TopCommas(t[i..], depth, i)
  {
    TopCommasStep(t, i, depth);
  }

  lemma TopCommasStep(t: string, i: nat, depth: int)
    requires i < |t|
    ensures TopCommas(t[i..], depth, i) ==
      (if t[i] == ',' && depth == 0 then [i] else []) + TopCommas(t[i + 1..], depth + Delta(t[i]), i + 1)
  {
    assert t[i..][1..] == t[i + 1..];
  }

  /** Second loop: one piece per recorded comma, then the tail. */
  method CutAt(typesName: string, positions: seq<nat>) returns (types: seq<string>)
    requires Cuts(typesName, positions, 0)
    ensures types == Split(typesName, positions, 0)
  {
    types := [];
    var startPos: nat := 0;
    var k := 0;
    while k < |positions|
      invariant k <= |positions| && startPos <= |typesName|
      invariant Cuts(typesName, positions[k..], startPos)
      invariant types + Split(typesName, positions[k..], startPos) == Split(typesName, positions, 0)
    {
      assert positions[k..][1..] == positions[k + 1..];
      types := types + [typesName[startPos..positions[k]]];
      startPos := positions[k] + 1;
      k := k + 1;
    }
    assert positions[k..] == [];
    types := types + [typesName[startPos..]];
  }

  // ---------------------------------------------------------------------------
  // Properties of the splitter

  lemma {:induction false} CountPrefixStep(s: string, m: nat, c: char)
    requires 1 <= m <= |s|
    ensures Count(s[..m], c) == (if s[0] == c then 1 else 0) + Count(s[1..][..m - 1], c)
  {
    assert s[..m][1..] == s[1..][..m - 1];
  }

  /** A position is reported exactly when it holds a comma and the `<` and `>`
      before it balance the starting depth. */
  lemma {:induction false} TopCommasAreBalancedCommas(s: string, depth: int, base: nat, x: int)
    ensures x in TopCommas(s, depth, base) <==>
      base <= x < base + |s| && s[x - base] == ',' &&
      depth + Count(s[..x - base], '<') - Count(s[..x - base], '>') == 0
    decreases |s|
  {
    if |s| > 0 {
      var head: seq<nat> := if s[0] == ',' && depth == 0 then [base] else [];
      var rest := TopCommas(s[1..], depth + Delta(s[0]), base + 1);
      assert TopCommas(s, depth, base) == head + rest;
      TopCommasAreBalancedCommas(s[1..], depth + Delta(s[0]), base + 1, x);
      if x == base {
        assert s[..0] == [];
      } else if base < x < base + |s| {
        assert x !in head;
        CountPrefixStep(s, x - base, '<');
        CountPrefixStep(s, x - base, '>');
        assert s[1..][x - (base + 1)] == s[x - base];
      } else {
        assert x !in head;
      }
    }
  }

  /** The split is recorded only at depth-zero commas, and at all of them. */
  lemma SplitPointsAtDepthZero(t: string, x: int)
    ensures x in TopCommas(t, 0, 0) <==>
      0 <= x < |t| && t[x] == ',' && Count(t[..x], '<') == Count(t[..x], '>')
  {
    TopCommasAreBalancedCommas(t, 0, 0, x);
    if 0 <= x < |t| {
      assert t[..x - 0] == t[..x];
    }
  }

  /** Joining the pieces with commas gives back the text that was cut. */
  lemma {:induction false} JoinSplit(t: string, ps: seq<nat>, start: nat)
    requires Cuts(t, ps, start)
    requires forall k :: 0 <= k < |ps| ==> t[ps[k]] == ','
    ensures Join(Split(t, ps, start)) == t[start..]
    decreases |ps|
  {
    if |ps| > 0 {
      JoinSplit(t, ps[1..], ps[0] + 1);
      assert t[start..] == t[start..ps[0]] + "," + t[ps[0] + 1..];
    }
  }

  /** The pieces rebuild the body, and there is one piece more than there are
      depth-zero commas (so never none). */
  lemma CompoundFieldsRebuildBody(s: string)
    ensures Join(CompoundFields(s)) == CompoundBody(s)
    ensures |CompoundFields(s)| == |TopCommas(CompoundBody(s), 0, 0)| + 1
  {
    var body := CompoundBody(s);
    TopCommasAreCuts(body, 0, 0);
    JoinSplit(body, TopCommas(body, 0, 0), 0);
    assert body[0..] == body;
  }

  /** For a well-formed compound name the body is exactly the text strictly between
      the first `<` and the last `>`. */
  lemma CompoundBodyBetweenBrackets(s: string, l: nat, r: nat)
    requires FindChar(s, '<') == Some(l) && RFindChar(s, '>') == Some(r) && l < r
    ensures CompoundBody(s) == s[l + 1..r]
  {
  }
}
