/** Finite collections of row ids. A table is a map from id to row; whenever the source reads a table
    without an ORDER BY (a list endpoint, a `Limit(1)` lookup) this model visits the rows in ascending id
    order, the order a primary-key scan returns them. */
module Collections {

  import opened Base

  predicate StrictlyIncreasing(s: seq<nat>)
  {
    forall i, j :: 0 <= i < j < |s| ==> s[i] < s[j]
  }

  predicate IsLeast(m: nat, s: set<nat>)
  {
    m in s && forall x :: x in s ==> m <= x
  }

  lemma {:induction false} LeastExists(s: set<nat>)
    requires s != {}
    ensures exists m :: IsLeast(m, s)
    decreases |s|
  {
    var y :| y in s;
    assert forall x :: x in s ==> x == y || x in s - {y};
    if s - {y} == {} {
      assert IsLeast(y, s);
    } else {
      LeastExists(s - {y});
      var m :| IsLeast(m, s - {y});
      if y < m {
        assert IsLeast(y, s);
      } else {
        assert IsLeast(m, s);
      }
    }
  }

  /** The elements of `s` in ascending order. */
  function Sorted(s: set<nat>): (r: seq<nat>)
    ensures StrictlyIncreasing(r)
    ensures forall x :: x in r <==> x in s
    ensures |r| == |s|
    decreases |s|
  {
    if s == {} then []
    else
      LeastExists(s);
      var m :| IsLeast(m, s);
      var rest := Sorted(s - {m});
      PrependLeast(m, s, rest);
      [m] + rest
  }

  /** Putting the least element of `s` in front of an ascending listing of the rest lists `s` in
      ascending order. */
  lemma PrependLeast(m: nat, s: set<nat>, rest: seq<nat>)
    requires IsLeast(m, s) && StrictlyIncreasing(rest)
    requires (forall x :: x in rest <==> x in s - {m}) && |rest| == |s - {m}|
    ensures StrictlyIncreasing([m] + rest)
    ensures forall x :: x in [m] + rest <==> x in s
    ensures |[m] + rest| == |s|
  {
    var r := [m] + rest;
    forall i, j | 0 <= i < j < |r|
      ensures r[i] < r[j]
    {
      assert r[j] == rest[j - 1] && r[j] in rest;
      if i > 0 {
        assert r[i] == rest[i - 1];
      }
    }
  }

  /** The first id, in ascending order, whose row satisfies `p` — what `Limit(1).Where(p).Find` yields. */
  function FirstMatch<V>(m: map<nat, V>, p: V -> bool): (r: Option<nat>)
    ensures r.Some? ==> r.value in m && p(m[r.value])
    ensures r.Some? ==> forall k :: k in m && k < r.value ==> !p(m[k])
    ensures r.None? <==> forall k :: k in m ==> !p(m[k])
  {
    var keys := Sorted(m.Keys);
    var i := FirstIndex(keys, m, p, 0);
    if i < |keys| then Some(keys[i]) else None
  }

  /** Scans `keys[from..]` and returns the position of the first key whose row satisfies `p`
      (|keys| when there is none). */
  function FirstIndex<V>(keys: seq<nat>, m: map<nat, V>, p: V -> bool, from: nat): (i: nat)
    requires from <= |keys|
    requires StrictlyIncreasing(keys)
    requires forall k :: k in keys <==> k in m
    requires forall j :: 0 <= j < from ==> !p(m[keys[j]])
    ensures from <= i <= |keys|
    ensures i < |keys| ==> p(m[keys[i]])
    ensures forall j :: 0 <= j < i ==> !p(m[keys[j]])
    decreases |keys| - from
  {
    if from == |keys| then from
    else if p(m[keys[from]]) then from
    else FirstIndex(keys, m, p, from + 1)
  }

  /** The rows of a table in ascending id order. */
  function Rows<V(==)>(m: map<nat, V>): (r: seq<V>)
    ensures |r| == |m|
    ensures forall i :: 0 <= i < |r| ==> exists k :: k in m && m[k] == r[i]
  {
    var keys := Sorted(m.Keys);
    seq(|keys|, i requires 0 <= i < |keys| => m[keys[i]])
  }

}
