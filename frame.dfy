/** The column-name bookkeeping of `datatable/frame.py`: the `key` property,
    which names the first `nkeys` columns of a frame as its key and reorders
    the columns so that the key comes first, and `_delete_columns`, which
    recomputes the column names after the native core has dropped columns.

    A frame is modelled by its column names and its `nkeys`; the columns'
    data, held by the native core, is represented only through the order of
    the names. `colindex`, which resolves a column reference, is a parameter. */
module FrameKey {
  import opened Results

  /** A column reference as `colindex` accepts it: a position or a name. */
  datatype ColRef = Index(i: int) | Name(s: string)

  /** What may be assigned to `key`: None, a single reference, or a list. */
  datatype KeyArg = NoKey | One(ref: ColRef) | Many(refs: seq<ColRef>)

  datatype KeyError =
    /** `colindex` rejected this reference. */
    | UnknownColumn(ref: ColRef)
    /** "Duplicate columns requested for the key", with the names requested. */
    | DuplicateKey(names: seq<string>)

  //---- Index sequences ----

  /** `list(range(a, b))`. */
  function Range(a: nat, b: nat): (r: seq<nat>)
    ensures |r| == if a <= b then b - a else 0
    ensures forall k :: 0 <= k < |r| ==> r[k] == a + k
  {
    if a < b then seq(b - a, k requires 0 <= k < b - a => a + k) else []
  }

  predicate Distinct(s: seq<nat>)
  {
    forall i, j :: 0 <= i < j < |s| ==> s[i] != s[j]
  }

  predicate StrictlyIncreasing(s: seq<nat>)
  {
    forall i, j :: 0 <= i < j < |s| ==> s[i] < s[j]
  }

  /** `[i for i in range(n) if i not in c]`. */
  function Remaining(c: seq<nat>, n: nat): (r: seq<nat>)
    ensures forall k :: 0 <= k < |r| ==> r[k] < n && r[k] !in c
  {
    if n == 0 then []
    else
      var r := Remaining(c, n - 1);
      if n - 1 in c then r else r + [n - 1]
  }

  /** `[names[i] for i in idx]`: the frame with its columns taken in the order
      `idx`. */
  function Select(names: seq<string>, idx: seq<nat>): (r: seq<string>)
    requires forall k :: 0 <= k < |idx| ==> idx[k] < |names|
    ensures |r| == |idx|
    ensures forall k :: 0 <= k < |idx| ==> r[k] == names[idx[k]]
  {
    seq(|idx|, k requires 0 <= k < |idx| => names[idx[k]])
  }

  /** The column order after making `ci` the key: the key columns, then every
      other column in its original order. */
  function NewOrder(ci: seq<nat>, n: nat): (r: seq<nat>)
    ensures |ci| <= |r| && r[..|ci|] == ci
    ensures forall k :: |ci| <= k < |r| ==> r[k] < n && r[k] !in ci
    ensures StrictlyIncreasing(r[|ci|..])
  {
    RemainingIncreasing(ci, n);
    assert (ci + Remaining(ci, n))[|ci|..] == Remaining(ci, n);
    ci + Remaining(ci, n)
  }

  /** `p` lists each of the positions 0 .. n-1 exactly once. */
  ghost predicate IsPermutation(p: seq<nat>, n: nat)
  {
    |p| == n && Distinct(p) && (forall k :: 0 <= k < |p| ==> p[k] < n) && (forall x :: 0 <= x < n ==> x in p)
  }

  /** `[self.colindex(n) for n in colnames]`: the positions of the references,
      or the first one `colindex` rejects. */
  function ResolveAll(refs: seq<ColRef>, colindex: ColRef -> Option<nat>): (r: Result<seq<nat>, KeyError>)
    ensures r.Ok? <==> forall k :: 0 <= k < |refs| ==> colindex(refs[k]).Some?
    ensures r.Ok? ==> |r.value| == |refs| && forall k :: 0 <= k < |refs| ==> r.value[k] == colindex(refs[k]).value
    ensures r.Err? ==> exists k :: 0 <= k < |refs| && r.error == UnknownColumn(refs[k]) && colindex(refs[k]).None? &&
                                   forall k' :: 0 <= k' < k ==> colindex(refs[k']).Some?
  {
    if refs == [] then Ok([])
    else match colindex(refs[0])
      case None => Err(UnknownColumn(refs[0]))
      case Some(i) =>
        match ResolveAll(refs[1..], colindex)
        case Err(e) => (assert forall k :: 1 <= k < |refs| ==> refs[1..][k - 1] == refs[k]; Err(e))
        case Ok(rest) => Ok([i] + rest)
  }

  /** A single column reference counts as a list of one. */
  function Refs(arg: KeyArg): (r: seq<ColRef>)
    ensures arg.NoKey? ==> r == []
    ensures arg.One? ==> r == [arg.ref]
    ensures arg.Many? ==> r == arg.refs
  {
    match arg
    case NoKey => []
    case One(r) => [r]
    case Many(rs) => rs
  }

  class Frame {
    var names: seq<string>
    var nkeys: nat

    constructor (names: seq<string>)
      ensures this.names == names && nkeys == 0
    {
      this.names := names;
      nkeys := 0;
    }

    /** The names of the key columns: the first `nkeys` names, clipped to the
        number of columns as a Python slice is. */
    function Key(): (r: seq<string>)
      reads this
      ensures r <= names
      ensures |r| == if nkeys <= |names| then nkeys else |names|
    {
      if nkeys <= |names| then names[..nkeys] else names
    }

    /** The `key` setter. `colindex` resolves references against this frame,
        so every position it returns is a column of it. */
    method SetKey(arg: KeyArg, colindex: ColRef -> Option<nat>) returns (r: Result<(), KeyError>)
      requires forall c :: colindex(c).Some? ==> colindex(c).value < |names|
      modifies this
      ensures arg.NoKey? ==> r.Ok? && nkeys == 0 && names == old(names)
      ensures !arg.NoKey? && ResolveAll(Refs(arg), colindex).Err? ==>
                r == Err(ResolveAll(Refs(arg), colindex).error) && names == old(names) && nkeys == old(nkeys)
      ensures !arg.NoKey? && ResolveAll(Refs(arg), colindex).Ok? ==>
                var ci := ResolveAll(Refs(arg), colindex).value;
                (r.Ok? <==> ci == Range(0, |ci|) || Distinct(ci)) &&
                (r.Ok? ==> names == Select(old(names), NewOrder(ci, |old(names)|)) && nkeys == |ci|) &&
                (r.Ok? ==> Key() == Select(old(names), ci) && multiset(names) == multiset(old(names))) &&
                (r.Err? ==> r == Err(DuplicateKey(Select(old(names), ci))) && names == old(names) && nkeys == old(nkeys))
    {
      if arg.NoKey? {
        nkeys := 0;
        return Ok(());
      }
      var refs := Refs(arg);
      var nk := |refs|;
      var resolved := ResolveAll(refs, colindex);
      if resolved.Err? {
        return Err(resolved.error);
      }
      var ci := resolved.value;
      if ci == Range(0, nk) {
        // Already in key order: the columns stay where they are.
        InOrderKeepsColumns(names, ci);
        assert Distinct(ci);
        KeyIsRequestedColumns(names, ci);
      } else if |Elements(ci)| == nk {
        SetSizeIsDistinct(ci);
        KeyIsRequestedColumns(names, ci);
        names := Select(names, NewOrder(ci, |names|));
      } else {
        SetSizeIsDistinct(ci);
        return Err(DuplicateKey(Select(names, ci)));
      }
      nkeys := nk;
      r := Ok(());
    }

    /** `_delete_columns(cols)`: the names of the columns at positions `cols`
        are dropped, the others keep their order. */
    method DeleteColumns(cols: seq<nat>)
      requires StrictlyIncreasing(cols)
      requires forall k :: 0 <= k < |cols| ==> cols[k] < |names|
      modifies this
      ensures names == Select(old(names), Remaining(cols, |old(names)|))
      ensures |names| == |old(names)| - |cols|
      ensures nkeys == old(nkeys)
    {
      IncreasingIsDistinct(cols);
      RemainingCount(cols, |names|);
      if |cols| == 0 {
        DeleteNothingIsNoOp(names);
        return;
      }
      var newnames := SurvivingNames(names, cols);
      names := newnames;
    }
  }

  /** The name list `_delete_columns` builds: the names before the first
      deleted position, each run between two deleted positions, and the names
      after the last. */
  method SurvivingNames(names: seq<string>, cols: seq<nat>) returns (newnames: seq<string>)
    requires StrictlyIncreasing(cols) && |cols| > 0
    requires forall k :: 0 <= k < |cols| ==> cols[k] < |names|
    ensures newnames == Select(names, Remaining(cols, |names|))
  {
    KeptBefore(names, cols);
    newnames := names[..cols[0]];
    var i := 1;
    while i < |cols|
      invariant 1 <= i <= |cols|
      invariant newnames == Select(names, Remaining(cols, cols[i - 1]))
    {
      KeptRun(names, cols, i - 1, cols[i]);
      newnames := newnames + names[cols[i - 1] + 1..cols[i]];
      i := i + 1;
    }
    KeptRun(names, cols, |cols| - 1, |names|);
    newnames := newnames + names[cols[|cols| - 1] + 1..];
  }

  //---- Properties of the key order ----

  /** The surviving positions keep their order. */
  lemma {:induction false} RemainingIncreasing(c: seq<nat>, n: nat)
    ensures StrictlyIncreasing(Remaining(c, n))
  {
    if n > 0 {
      RemainingIncreasing(c, n - 1);
    }
  }

  /** Every position below n that is not in c survives. */
  lemma {:induction false} RemainingHas(c: seq<nat>, n: nat, x: nat)
    requires x < n && x !in c
    ensures x in Remaining(c, n)
  {
    if x < n - 1 {
      RemainingHas(c, n - 1, x);
    }
  }

  /** Key positions that are already 0 .. nk-1 give the identity order, so the
      setter's shortcut agrees with the general reordering. */
  lemma InOrderKeepsColumns(names: seq<string>, ci: seq<nat>)
    requires ci == Range(0, |ci|) && forall k :: 0 <= k < |ci| ==> ci[k] < |names|
    ensures NewOrder(ci, |names|) == Range(0, |names|)
    ensures Select(names, NewOrder(ci, |names|)) == names
  {
    assert |ci| <= |names| by {
      if |ci| > 0 { assert ci[|ci| - 1] == |ci| - 1; }
    }
    RemainingGap(ci, |ci|, |names|);
    RemainingOfPrefix(ci, |ci|);
    SelectRange(names, 0, |names|);
  }

  lemma {:induction false} RemainingOfPrefix(c: seq<nat>, m: nat)
    requires m <= |c| && forall k :: 0 <= k < m ==> c[k] == k
    ensures Remaining(c, m) == []
  {
    if m > 0 {
      assert c[m - 1] == m - 1;
      RemainingOfPrefix(c, m - 1);
    }
  }

  /** With distinct key positions, the new order is a permutation of the
      columns that starts with the key. */
  lemma NewOrderIsPermutation(ci: seq<nat>, n: nat)
    requires Distinct(ci) && forall k :: 0 <= k < |ci| ==> ci[k] < n
    ensures IsPermutation(NewOrder(ci, n), n)
    ensures NewOrder(ci, n)[..|ci|] == ci
  {
    var p := NewOrder(ci, n);
    var rest := Remaining(ci, n);
    RemainingCount(ci, n);
    RemainingIncreasing(ci, n);
    IncreasingIsDistinct(rest);
    forall i, j | 0 <= i < j < |p| ensures p[i] != p[j] {
      if j < |ci| {
      } else if i >= |ci| {
        assert p[i] == rest[i - |ci|] && p[j] == rest[j - |ci|];
      } else {
        assert p[i] in ci && p[j] == rest[j - |ci|];
      }
    }
    forall x | 0 <= x < n ensures x in p {
      if x !in ci {
        RemainingHas(ci, n, x);
      }
    }
    assert p[..|ci|] == ci;
  }

  /** After a successful `key` assignment the key is the requested columns'
      names, in the requested order. */
  lemma KeyIsRequestedColumns(names: seq<string>, ci: seq<nat>)
    requires Distinct(ci) && forall k :: 0 <= k < |ci| ==> ci[k] < |names|
    ensures Select(names, NewOrder(ci, |names|))[..|ci|] == Select(names, ci)
    ensures multiset(Select(names, NewOrder(ci, |names|))) == multiset(names)
  {
    NewOrderIsPermutation(ci, |names|);
    PermutationKeepsNames(names, NewOrder(ci, |names|));
  }

  /** Taking the columns in a permuted order keeps the same names. */
  lemma {:induction false} PermutationKeepsNames(names: seq<string>, p: seq<nat>)
    requires IsPermutation(p, |names|)
    ensures multiset(Select(names, p)) == multiset(names)
    decreases |names|
  {
    if |names| > 0 {
      var n := |names| - 1;
      assert n in p;
      var j :| 0 <= j < |p| && p[j] == n;
      var p' := p[..j] + p[j + 1..];
      PermutationWithout(p, n, j);
      PermutationKeepsNames(names[..n], p');
      SelectPrefix(names, n, p');
      SelectWithout(names, p, j);
      assert names == names[..n] + [names[n]];
      assert multiset(names) == multiset(names[..n]) + multiset{names[n]};
    }
  }

  /** Taking one position out of an order takes its name out of the result. */
  lemma SelectWithout(names: seq<string>, p: seq<nat>, j: nat)
    requires j < |p| && forall k :: 0 <= k < |p| ==> p[k] < |names|
    ensures multiset(Select(names, p)) == multiset(Select(names, p[..j] + p[j + 1..])) + multiset{names[p[j]]}
  {
    var front, back := p[..j], p[j + 1..];
    assert p == front + ([p[j]] + back);
    SelectConcat(names, front, [p[j]] + back);
    SelectConcat(names, [p[j]], back);
    SelectConcat(names, front, back);
    assert Select(names, [p[j]]) == [names[p[j]]];
  }

  lemma PermutationWithout(p: seq<nat>, n: nat, j: nat)
    requires IsPermutation(p, n + 1) && j < |p| && p[j] == n
    ensures IsPermutation(p[..j] + p[j + 1..], n)
  {
    var p' := p[..j] + p[j + 1..];
    assert forall k :: 0 <= k < |p'| ==> p'[k] == if k < j then p[k] else p[k + 1];
    forall x | 0 <= x < n ensures x in p' {
      assert x in p;
      var k :| 0 <= k < |p| && p[k] == x;
      if k < j {
        assert p'[k] == x;
      } else {
        assert p'[k - 1] == x;
      }
    }
  }

  lemma SelectPrefix(names: seq<string>, n: nat, p: seq<nat>)
    requires n <= |names| && forall k :: 0 <= k < |p| ==> p[k] < n
    ensures Select(names[..n], p) == Select(names, p)
  {
  }

  /** `set(s)`. */
  function Elements(s: seq<nat>): set<nat>
  {
    set x | x in s
  }

  /** `len(set(colindices)) == nk`, the source's test, is the same as the
      positions being distinct. */
  lemma {:induction false} SetSizeIsDistinct(ci: seq<nat>)
    ensures |Elements(ci)| == |ci| <==> Distinct(ci)
    ensures |Elements(ci)| <= |ci|
    decreases |ci|
  {
    if ci != [] {
      var t := ci[1..];
      SetSizeIsDistinct(t);
      assert forall k :: 0 <= k < |t| ==> t[k] == ci[k + 1];
      assert Elements(ci) == {ci[0]} + Elements(t) by {
        assert forall x :: x in ci <==> x == ci[0] || x in t;
      }
      if ci[0] in t {
        assert Elements(ci) == Elements(t);
        var k :| 0 <= k < |t| && t[k] == ci[0];
        assert ci[k + 1] == ci[0];
      } else {
        assert ci[0] !in Elements(t);
        assert |Elements(ci)| == |Elements(t)| + 1;
        if Distinct(t) {
          forall i, j | 0 <= i < j < |ci| ensures ci[i] != ci[j] {
            if i == 0 {
              assert ci[j] == t[j - 1];
            } else {
              assert ci[i] == t[i - 1] && ci[j] == t[j - 1];
            }
          }
        } else {
          var i, j :| 0 <= i < j < |t| && t[i] == t[j];
          assert ci[i + 1] == ci[j + 1];
        }
      }
    } else {
      assert Elements(ci) == {};
    }
  }

  //---- Properties of column deletion ----

  /** The surviving names in order: each old position not in `cols`. */
  lemma DeleteKeepsOthersInOrder(names: seq<string>, cols: seq<nat>)
    ensures forall x: nat :: x in Remaining(cols, |names|) <==> x < |names| && x !in cols
    ensures StrictlyIncreasing(Remaining(cols, |names|))
  {
    forall x: nat | x in Remaining(cols, |names|) ensures x < |names| && x !in cols {
      var k :| 0 <= k < |Remaining(cols, |names|)| && Remaining(cols, |names|)[k] == x;
    }
    forall x | 0 <= x < |names| && x !in cols ensures x in Remaining(cols, |names|) {
      RemainingHas(cols, |names|, x);
    }
    RemainingIncreasing(cols, |names|);
  }

  /** Deleting no column leaves the names as they are. */
  lemma DeleteNothingIsNoOp(names: seq<string>)
    ensures Select(names, Remaining([], |names|)) == names
  {
    RemainingGap([], 0, |names|);
    assert Remaining([], 0) == [];
    assert Remaining([], |names|) == Range(0, |names|);
    SelectRange(names, 0, |names|);
    assert names[0..|names|] == names;
  }

  lemma IncreasingIsDistinct(s: seq<nat>)
    requires StrictlyIncreasing(s)
    ensures Distinct(s)
  {
  }

  /** The number of positions below n that are not in c, for distinct c below n. */
  lemma {:induction false} RemainingCount(c: seq<nat>, n: nat)
    requires Distinct(c)
    requires forall k :: 0 <= k < |c| ==> c[k] < n
    ensures |Remaining(c, n)| == n - |c|
  {
    CountBelowAll(c, n);
    RemainingCountBelow(c, n);
  }

  function CountBelow(c: seq<nat>, n: nat): (r: nat)
    ensures r <= n
  {
    if n == 0 then 0 else CountBelow(c, n - 1) + if n - 1 in c then 1 else 0
  }

  lemma {:induction false} RemainingCountBelow(c: seq<nat>, n: nat)
    ensures |Remaining(c, n)| == n - CountBelow(c, n)
  {
    if n > 0 {
      RemainingCountBelow(c, n - 1);
    }
  }

  lemma {:induction false} CountBelowCons(a: nat, t: seq<nat>, n: nat)
    requires a !in t
    ensures CountBelow([a] + t, n) == CountBelow(t, n) + if a < n then 1 else 0
  {
    if n > 0 {
      CountBelowCons(a, t, n - 1);
      assert (n - 1 in [a] + t) <==> n - 1 == a || n - 1 in t;
    }
  }

  lemma {:induction false} CountBelowAll(c: seq<nat>, n: nat)
    requires Distinct(c) && forall k :: 0 <= k < |c| ==> c[k] < n
    ensures CountBelow(c, n) == |c|
    decreases |c|
  {
    if c == [] {
      CountBelowNone(n);
    } else {
      var t := c[1..];
      assert c == [c[0]] + t;
      assert c[0] !in t by {
        assert forall k :: 0 <= k < |t| ==> t[k] == c[k + 1];
      }
      CountBelowAll(t, n);
      CountBelowCons(c[0], t, n);
    }
  }

  lemma {:induction false} CountBelowNone(n: nat)
    ensures CountBelow([], n) == 0
  {
    if n > 0 {
      CountBelowNone(n - 1);
    }
  }

  /** Between two positions holding no element of c, the positions not in c
      are exactly those of the gap. */
  lemma {:induction false} RemainingGap(c: seq<nat>, a: nat, b: nat)
    requires a <= b && forall x :: a <= x < b ==> x !in c
    ensures Remaining(c, b) == Remaining(c, a) + Range(a, b)
    decreases b - a
  {
    if a < b {
      RemainingGap(c, a, b - 1);
      assert b - 1 !in c;
      assert Remaining(c, b) == Remaining(c, b - 1) + [b - 1];
      assert Range(a, b) == Range(a, b - 1) + [b - 1];
    } else {
      assert Range(a, b) == [];
    }
  }

  /** A strictly increasing sequence holds nothing before its first element,
      between two neighbours, or after its last. */
  lemma GapsOf(cols: seq<nat>, i: nat)
    requires StrictlyIncreasing(cols) && 0 < i <= |cols|
    ensures forall x :: 0 <= x < cols[0] ==> x !in cols
    ensures i < |cols| ==> forall x :: cols[i - 1] < x < cols[i] ==> x !in cols
    ensures forall x :: x > cols[|cols| - 1] ==> x !in cols
  {
    forall x | 0 <= x < cols[0] ensures x !in cols {
      forall m | 0 <= m < |cols| ensures cols[m] != x {
        if m > 0 { assert cols[0] < cols[m]; }
      }
    }
    if i < |cols| {
      forall x | cols[i - 1] < x < cols[i] ensures x !in cols {
        forall m | 0 <= m < |cols| ensures cols[m] != x {
          if m < i - 1 { assert cols[m] < cols[i - 1]; }
          else if m > i { assert cols[i] < cols[m]; }
        }
      }
    }
    forall x | x > cols[|cols| - 1] ensures x !in cols {
      forall m | 0 <= m < |cols| ensures cols[m] != x {
        if m < |cols| - 1 { assert cols[m] < cols[|cols| - 1]; }
      }
    }
  }

  /** The names kept below the first deleted position are all names before it. */
  lemma KeptBefore(names: seq<string>, cols: seq<nat>)
    requires StrictlyIncreasing(cols) && 0 < |cols| && cols[0] < |names|
    ensures Select(names, Remaining(cols, cols[0])) == names[..cols[0]]
  {
    GapsOf(cols, 1);
    RemainingGap(cols, 0, cols[0]);
    assert Remaining(cols, 0) == [];
    assert Remaining(cols, cols[0]) == Range(0, cols[0]);
    SelectRange(names, 0, cols[0]);
    assert names[0..cols[0]] == names[..cols[0]];
  }

  /** Past a deleted position, the names up to the next deleted position (or
      the end) are added to those kept. */
  lemma KeptRun(names: seq<string>, cols: seq<nat>, i: nat, b: nat)
    requires StrictlyIncreasing(cols) && i < |cols|
    requires forall k :: 0 <= k < |cols| ==> cols[k] < |names|
    requires if i + 1 < |cols| then b == cols[i + 1] else b == |names|
    ensures cols[i] < b <= |names|
    ensures Select(names, Remaining(cols, b)) == Select(names, Remaining(cols, cols[i])) + names[cols[i] + 1..b]
  {
    var a := cols[i];
    GapsOf(cols, i + 1);
    RemainingSkip(cols, i);
    RemainingGap(cols, a + 1, b);
    SelectConcat(names, Remaining(cols, a), Range(a + 1, b));
    SelectRange(names, a + 1, b);
  }

  lemma RemainingSkip(cols: seq<nat>, i: nat)
    requires i < |cols|
    ensures Remaining(cols, cols[i] + 1) == Remaining(cols, cols[i])
  {
  }

  lemma SelectConcat(names: seq<string>, xs: seq<nat>, ys: seq<nat>)
    requires forall k :: 0 <= k < |xs| ==> xs[k] < |names|
    requires forall k :: 0 <= k < |ys| ==> ys[k] < |names|
    ensures Select(names, xs + ys) == Select(names, xs) + Select(names, ys)
  {
  }

  lemma SelectRange(names: seq<string>, a: nat, b: nat)
    requires a <= b <= |names|
    ensures Select(names, Range(a, b)) == names[a..b]
  {
  }
}
