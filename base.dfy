/** Small value wrappers shared by every module of the model. */
module Base {

  /** A value that may be missing: a JavaScript `null`/`undefined` or an
      absent field. */
  datatype Option<+T> = None | Some(value: T) {
    /** `x || d` for a value whose only falsy form is "missing". */
    function GetOr(default: T): T {
      match this
      case Some(v) => v
      case None => default
    }
  }

  /** The outcome of a submit handler: the request it issues, or the
      message it shows instead. */
  datatype Result<+T> = Ok(value: T) | Err(message: string)

  /** HTTP verbs the front end uses. */
  datatype Method = Get | Post | Put | Delete

  /** JavaScript truthiness of a string: only the empty string is falsy. */
  predicate Truthy(s: string) {
    s != ""
  }

  /** The values of the first `k` options that are present, in order. */
  function Collect<T>(opts: seq<Option<T>>, k: nat): seq<T>
    requires k <= |opts|
  {
    if k == 0 then []
    else Collect(opts, k - 1) + match opts[k - 1] case Some(v) => [v] case None => []
  }

  /** Collecting one more option appends its value when it is present. */
  lemma CollectStep<T>(opts: seq<Option<T>>, k: nat)
    requires k < |opts|
    ensures opts[k].Some? ==> Collect(opts, k + 1) == Collect(opts, k) + [opts[k].value]
    ensures opts[k].None? ==> Collect(opts, k + 1) == Collect(opts, k)
  {
  }

  /** Which options are present. */
  function SomeFlags<T>(opts: seq<Option<T>>): (flags: seq<bool>)
    ensures |flags| == |opts|
    ensures forall i :: 0 <= i < |opts| ==> (flags[i] <==> opts[i].Some?)
  {
    seq(|opts|, i requires 0 <= i < |opts| => opts[i].Some?)
  }

  /** The positions `i < k` where `flags[i]` holds, in increasing order. */
  function Positions(flags: seq<bool>, k: nat): (idx: seq<nat>)
    requires k <= |flags|
    ensures forall j :: 0 <= j < |idx| ==> idx[j] < k && flags[idx[j]]
    ensures |idx| <= k
    ensures forall i :: 0 <= i < k && flags[i] ==> i in idx
    ensures forall a, b :: 0 <= a < b < |idx| ==> idx[a] < idx[b]
  {
    if k == 0 then []
    else Positions(flags, k - 1) + (if flags[k - 1] then [k - 1] else [])
  }

  /** Collecting keeps exactly the present options, in order: the `j`-th
      collected value is the option at the `j`-th present position. */
  lemma {:induction false} CollectPerSome<T>(opts: seq<Option<T>>, k: nat)
    requires k <= |opts|
    ensures var vs := Collect(opts, k);
            var idx := Positions(SomeFlags(opts), k);
            |vs| == |idx| && forall j :: 0 <= j < |idx| ==> opts[idx[j]] == Some(vs[j])
  {
    if k > 0 {
      CollectPerSome(opts, k - 1);
    }
  }

  /** The number of flags that hold. */
  function Count(flags: seq<bool>): (c: nat)
    ensures c == |set i | 0 <= i < |flags| && flags[i]|
    ensures c <= |flags|
    ensures c == 0 <==> forall i :: 0 <= i < |flags| ==> !flags[i]
    ensures c == |flags| <==> forall i :: 0 <= i < |flags| ==> flags[i]
  {
    if flags == [] then 0
    else
      var n := |flags| - 1;
      var init := flags[..n];
      var c := Count(init) + if flags[n] then 1 else 0;
      assert (set i | 0 <= i < |flags| && flags[i])
             == (set i | 0 <= i < n && init[i]) + (if flags[n] then {n} else {});
      c
  }

  /** The elements `xs[i]` whose `keep[i]` holds, in order (`filter`): the
      `j`-th kept element is the one at the `j`-th kept position. */
  function Filter<T>(xs: seq<T>, keep: seq<bool>): (r: seq<T>)
    requires |keep| == |xs|
    ensures var idx := Positions(keep, |xs|);
            |r| == |idx| && forall j :: 0 <= j < |idx| ==> r[j] == xs[idx[j]]
    ensures |r| <= |xs|
    ensures forall i :: 0 <= i < |xs| && keep[i] ==> xs[i] in r
  {
    var opts := seq(|xs|, i requires 0 <= i < |xs| => if keep[i] then Some(xs[i]) else None);
    assert SomeFlags(opts) == keep;
    CollectPerSome(opts, |xs|);
    var r := Collect(opts, |xs|);
    var idx := Positions(keep, |xs|);
    assert forall i :: 0 <= i < |xs| && keep[i] ==> xs[i] in r by {
      forall i | 0 <= i < |xs| && keep[i] ensures xs[i] in r {
        var j :| 0 <= j < |idx| && idx[j] == i;
        assert r[j] == xs[i];
      }
    }
    r
  }

  /** When every flag below `k` holds, the positions are `0, 1, …, k-1`. */
  lemma {:induction false} PositionsAll(flags: seq<bool>, k: nat)
    requires k <= |flags|
    requires forall i :: 0 <= i < k ==> flags[i]
    ensures |Positions(flags, k)| == k
    ensures forall j :: 0 <= j < k ==> Positions(flags, k)[j] == j
  {
    if k > 0 {
      PositionsAll(flags, k - 1);
      assert Positions(flags, k) == Positions(flags, k - 1) + [k - 1];
    }
  }

  /** When no flag below `k` holds, there are no positions. */
  lemma {:induction false} PositionsNone(flags: seq<bool>, k: nat)
    requires k <= |flags|
    requires forall i :: 0 <= i < k ==> !flags[i]
    ensures Positions(flags, k) == []
  {
    if k > 0 {
      PositionsNone(flags, k - 1);
    }
  }

  /** `Math.round` on a non-negative or negative number: the nearest integer,
      halves rounded up (towards +infinity). */
  function MathRound(x: real): (r: int)
    ensures r as real <= x + 0.5 < r as real + 1.0
  {
    (x + 0.5).Floor
  }
}
