/**
 * The Python built-ins a composite factory's `make` is made of:
 * `zip` (pairs positionally, stops at the shorter input), `dict` over a
 * sequence of pairs (inserts left to right, a later duplicate key wins) and
 * keyword-argument binding of `f(**d)` against a fixed parameter list.
 */
module Binding {
  import opened Values

  datatype Result<T> = Ok(value: T) | Err(error: BindError)

  /**
   * The `TypeError` raised when `**d` does not fit the parameter list:
   * the keywords no parameter takes, and the parameters no keyword supplies.
   */
  datatype BindError = TypeError(unexpected: set<string>, missing: set<string>)

  function Min(a: nat, b: nat): nat {
    if a <= b then a else b
  }

  predicate Distinct<T(==)>(s: seq<T>) {
    forall i, j :: 0 <= i < j < |s| ==> s[i] != s[j]
  }

  function Elems<T>(s: seq<T>): set<T> {
    set x | x in s
  }

  /** Python's `zip(xs, ys)`: the i-th pair is `(xs[i], ys[i])`, as many pairs as the shorter input has elements. */
  function Zip<A, B>(xs: seq<A>, ys: seq<B>): (r: seq<(A, B)>)
    ensures |r| == Min(|xs|, |ys|)
    ensures forall i :: 0 <= i < |r| ==> r[i] == (xs[i], ys[i])
  {
    if xs == [] || ys == [] then [] else [(xs[0], ys[0])] + Zip(xs[1..], ys[1..])
  }

  function PairKeys<K, V>(ps: seq<(K, V)>): set<K> {
    set i | 0 <= i < |ps| :: ps[i].0
  }

  /** No pair after position i has the same key as the pair at i. */
  predicate LastWithKey<K(==), V>(ps: seq<(K, V)>, i: nat)
    requires i < |ps|
  {
    forall j :: i < j < |ps| ==> ps[j].0 != ps[i].0
  }

  /** The keys of a sequence of pairs are those of all but its last pair, plus the last pair's. */
  lemma PairKeysSnoc<K, V>(ps: seq<(K, V)>)
    requires ps != []
    ensures PairKeys(ps) == PairKeys(ps[..|ps| - 1]) + {ps[|ps| - 1].0}
  {
    var init := ps[..|ps| - 1];
    forall k | k in PairKeys(ps) ensures k in PairKeys(init) + {ps[|ps| - 1].0} {
      var i :| 0 <= i < |ps| && ps[i].0 == k;
      if i < |ps| - 1 { assert init[i] == ps[i]; }
    }
    forall k | k in PairKeys(init) ensures k in PairKeys(ps) {
      var i :| 0 <= i < |init| && init[i].0 == k;
      assert ps[i] == init[i];
    }
  }

  lemma LastWithKeyInit<K, V>(ps: seq<(K, V)>, i: nat)
    requires i < |ps| - 1 && LastWithKey(ps, i)
    ensures ps[..|ps| - 1][i] == ps[i] && LastWithKey(ps[..|ps| - 1], i)
    ensures ps[i].0 != ps[|ps| - 1].0
  {
  }

  /**
   * Python's `dict(ps)`: inserts the pairs left to right, so there is one
   * entry per key that occurs (ToMapLastWins says which value it holds).
   */
  function ToMap<K, V>(ps: seq<(K, V)>): (m: map<K, V>)
    ensures m.Keys == PairKeys(ps)
    decreases |ps|
  {
    if ps == [] then map[]
    else
      PairKeysSnoc(ps);
      ToMap(ps[..|ps| - 1])[ps[|ps| - 1].0 := ps[|ps| - 1].1]
  }

  /** A later duplicate key wins: each key holds the value of the last pair with that key. */
  lemma {:induction false} ToMapLastWins<K, V>(ps: seq<(K, V)>, i: nat)
    requires i < |ps| && LastWithKey(ps, i)
    ensures ps[i].0 in ToMap(ps) && ToMap(ps)[ps[i].0] == ps[i].1
    decreases |ps|
  {
    if i < |ps| - 1 {
      LastWithKeyInit(ps, i);
      ToMapLastWins(ps[..|ps| - 1], i);
    }
  }

  /** The keys of `zip(xs, ys)` are the names of xs that `zip` did not cut off. */
  lemma ZipKeys(xs: seq<string>, ys: seq<Value>)
    ensures PairKeys(Zip(xs, ys)) == Elems(xs[..Min(|xs|, |ys|)])
  {
    var ps := Zip(xs, ys);
    var n := Min(|xs|, |ys|);
    forall k | k in PairKeys(ps) ensures k in Elems(xs[..n]) {
      var i :| 0 <= i < |ps| && ps[i].0 == k;
      assert xs[..n][i] == k;
    }
    forall k | k in Elems(xs[..n]) ensures k in PairKeys(ps) {
      var i :| 0 <= i < n && xs[..n][i] == k;
      assert ps[i].0 == k;
    }
  }

  /**
   * `dict(zip(attnames, values))`, the mapping both factories build: its keys
   * are the attribute names `zip` did not cut off (ZipToDictPositional says
   * which value each holds).
   */
  function ZipToDict(attnames: seq<string>, values: seq<Value>): (m: map<string, Value>)
    ensures m.Keys == Elems(attnames[..Min(|attnames|, |values|)])
  {
    ZipKeys(attnames, values);
    ToMap(Zip(attnames, values))
  }

  /**
   * Binding `f(**kw)` for a function whose parameters are `params` (no
   * defaults, no `**kwargs` catch-all): each parameter takes the keyword of
   * its name. It succeeds exactly when the keywords are the parameter names,
   * and then the arguments are the keyword values in parameter order.
   */
  function Bind(params: seq<string>, kw: map<string, Value>): (r: Result<seq<Value>>)
    requires Distinct(params)
    ensures r.Ok? <==> kw.Keys == Elems(params)
    ensures r.Ok? ==> |r.value| == |params| && forall i :: 0 <= i < |params| ==> r.value[i] == kw[params[i]]
    ensures r.Err? ==> r.error == TypeError(kw.Keys - Elems(params), Elems(params) - kw.Keys)
    decreases |params|
  {
    if params == [] then
      if kw.Keys == {} then Ok([]) else Err(TypeError(kw.Keys, {}))
    else
      var p := params[0];
      assert Elems(params) == {p} + Elems(params[1..]);
      assert p !in Elems(params[1..]);
      var rest := Bind(params[1..], kw - {p});
      match rest
      case Ok(args) =>
        if p in kw then Ok([kw[p]] + args) else Err(TypeError({}, {p}))
      case Err(e) =>
        Err(TypeError(e.unexpected, if p in kw then e.missing else e.missing + {p}))
  }

  /**
   * Positional fidelity: the name at position i is paired with the value at
   * position i, unless a later pair that `zip` keeps repeats that name.
   */
  lemma ZipToDictPositional(attnames: seq<string>, values: seq<Value>, i: nat)
    requires i < |attnames| && i < |values|
    requires forall j :: i < j < Min(|attnames|, |values|) ==> attnames[j] != attnames[i]
    ensures attnames[i] in ZipToDict(attnames, values)
    ensures ZipToDict(attnames, values)[attnames[i]] == values[i]
  {
    var ps := Zip(attnames, values);
    assert ps[i] == (attnames[i], values[i]);
    assert LastWithKey(ps, i);
    ToMapLastWins(ps, i);
  }

  /** `zip` stops at the end of `attnames`: values past it never reach the mapping. */
  lemma ZipToDictDropsExtra(attnames: seq<string>, values: seq<Value>, extra: seq<Value>)
    requires |values| >= |attnames|
    ensures ZipToDict(attnames, values + extra) == ZipToDict(attnames, values)
  {
    assert Zip(attnames, values + extra) == Zip(attnames, values);
  }

  /** Applies the index permutation p: position i of the result holds `s[p[i]]`. */
  function Permute<T>(s: seq<T>, p: seq<nat>): (r: seq<T>)
    requires forall i :: 0 <= i < |p| ==> p[i] < |s|
    ensures |r| == |p| && forall i :: 0 <= i < |p| ==> r[i] == s[p[i]]
  {
    seq(|p|, i requires 0 <= i < |p| => s[p[i]])
  }

  /** p is a bijection of the indices `0 .. n-1`. */
  predicate IsPermutation(p: seq<nat>, n: nat) {
    && |p| == n
    && (forall i :: 0 <= i < n ==> p[i] < n)
    && Distinct(p)
    && (forall j :: 0 <= j < n ==> j in p)
  }

  lemma PermuteDistinct(s: seq<string>, p: seq<nat>)
    requires Distinct(s) && IsPermutation(p, |s|)
    ensures Distinct(Permute(s, p))
  {
    var s' := Permute(s, p);
    forall i, j | 0 <= i < j < |s| ensures s'[i] != s'[j] {
      assert p[i] != p[j];
    }
  }

  lemma PermuteElems(s: seq<string>, p: seq<nat>)
    requires IsPermutation(p, |s|)
    ensures Elems(Permute(s, p)) == Elems(s)
  {
    var s' := Permute(s, p);
    forall k | k in Elems(s) ensures k in Elems(s') {
      var i :| 0 <= i < |s| && s[i] == k;
      assert i in p;
      var j :| 0 <= j < |p| && p[j] == i;
      assert s'[j] == k;
    }
  }

  /** With distinct names, every position's name maps to that position's value. */
  lemma ZipToDictDistinct(attnames: seq<string>, values: seq<Value>, i: nat)
    requires |attnames| == |values| && Distinct(attnames) && i < |attnames|
    ensures ZipToDict(attnames, values).Keys == Elems(attnames)
    ensures ZipToDict(attnames, values)[attnames[i]] == values[i]
  {
    assert attnames[..|attnames|] == attnames;
    ZipToDictPositional(attnames, values, i);
  }

  lemma PermutationSameValue(attnames: seq<string>, values: seq<Value>, p: seq<nat>, k: string)
    requires |attnames| == |values| && Distinct(attnames)
    requires IsPermutation(p, |attnames|)
    requires k in Elems(attnames)
    ensures k in ZipToDict(Permute(attnames, p), Permute(values, p))
    ensures ZipToDict(Permute(attnames, p), Permute(values, p))[k] == ZipToDict(attnames, values)[k]
  {
    var a', v' := Permute(attnames, p), Permute(values, p);
    var i :| 0 <= i < |attnames| && attnames[i] == k;
    assert i in p;
    var j :| 0 <= j < |p| && p[j] == i;
    assert a'[j] == k && v'[j] == values[i];
    PermuteDistinct(attnames, p);
    ZipToDictDistinct(attnames, values, i);
    ZipToDictDistinct(a', v', j);
  }

  /**
   * Binding is by name, not by position: permuting the attribute names and
   * the values by the same permutation builds the same mapping, provided the
   * names are distinct.
   */
  lemma ZipToDictPermutation(attnames: seq<string>, values: seq<Value>, p: seq<nat>)
    requires |attnames| == |values| && Distinct(attnames)
    requires IsPermutation(p, |attnames|)
    ensures ZipToDict(Permute(attnames, p), Permute(values, p)) == ZipToDict(attnames, values)
  {
    var a', v' := Permute(attnames, p), Permute(values, p);
    var m, m' := ZipToDict(attnames, values), ZipToDict(a', v');
    assert m.Keys == m'.Keys by {
      PermuteElems(attnames, p);
      ZipToDictKeysAll(attnames, values);
      ZipToDictKeysAll(a', v');
    }
    forall k | k in m.Keys ensures m'[k] == m[k] {
      ZipToDictKeysAll(attnames, values);
      PermutationSameValue(attnames, values, p, k);
    }
  }

  /** When no value is cut off, the keys are all the names. */
  lemma ZipToDictKeysAll(attnames: seq<string>, values: seq<Value>)
    requires |attnames| <= |values|
    ensures ZipToDict(attnames, values).Keys == Elems(attnames)
  {
    assert attnames[..|attnames|] == attnames;
  }
}
