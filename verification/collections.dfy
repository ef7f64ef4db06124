/**
  Generic sequence and map helpers shared by the model: an option and a result
  type for Go's nil and error returns, an error value and the state-plus-error
  of an in-place update, order-preserving filtering, mapping,
  flattening, counting, and the multiset of all values of a map whose values
  are lists.
 */
module Collections {

  /** Go's nil-or-value. */
  datatype Option<+T> = None | Some(value: T)

  /** Go's (value, error) pair where exactly one side is meaningful. */
  datatype Result<+T, +E> = Success(value: T) | Failure(error: E)

  /** An error returned by a collaborator; its content is never inspected. */
  datatype Error = Error(message: string)

  /** The state left behind by an operation that mutates in place, and the error it returned. */
  datatype Effect<T> = Effect(state: T, err: Option<Error>)

  /** The elements of `s` for which `keep` holds, in their original order. */
  function Filtered<T>(s: seq<T>, keep: T -> bool): (r: seq<T>)
    ensures |r| <= |s|
    ensures forall i :: 0 <= i < |r| ==> r[i] in s && keep(r[i])
    ensures forall i :: 0 <= i < |s| && keep(s[i]) ==> s[i] in r
  {
    if |s| == 0 then []
    else (if keep(s[0]) then [s[0]] else []) + Filtered(s[1..], keep)
  }

  lemma {:induction false} FilteredAppend<T>(a: seq<T>, b: seq<T>, keep: T -> bool)
    ensures Filtered(a + b, keep) == Filtered(a, keep) + Filtered(b, keep)
  {
    if |a| == 0 {
      assert a + b == b;
    } else {
      assert (a + b)[0] == a[0];
      assert (a + b)[1..] == a[1..] + b;
      FilteredAppend(a[1..], b, keep);
    }
  }

  /** Filtering a sequence extended by one element. */
  lemma FilteredSnoc<T>(s: seq<T>, x: T, keep: T -> bool)
    ensures Filtered(s + [x], keep) == Filtered(s, keep) + (if keep(x) then [x] else [])
  {
    FilteredAppend(s, [x], keep);
    assert Filtered([x], keep) == (if keep(x) then [x] else []) + Filtered([x][1..], keep);
  }

  /** `f` applied to every element of `s`. */
  function MapSeq<T, U>(s: seq<T>, f: T -> U): (r: seq<U>)
    ensures |r| == |s|
    ensures forall i :: 0 <= i < |s| ==> r[i] == f(s[i])
  {
    seq(|s|, i requires 0 <= i < |s| => f(s[i]))
  }

  lemma MapSeqAppend<T, U>(a: seq<T>, b: seq<T>, f: T -> U)
    ensures MapSeq(a + b, f) == MapSeq(a, f) + MapSeq(b, f)
  {
  }

  /** Mapping the kept elements of a non-empty sequence: its head's image, if kept, then the rest. */
  lemma MapFilteredCons<T, U>(s: seq<T>, keep: T -> bool, f: T -> U)
    requires |s| > 0
    ensures MapSeq(Filtered(s, keep), f) ==
      (if keep(s[0]) then [f(s[0])] else []) + MapSeq(Filtered(s[1..], keep), f)
  {
    var head := if keep(s[0]) then [s[0]] else [];
    assert Filtered(s, keep) == head + Filtered(s[1..], keep);
    MapSeqAppend(head, Filtered(s[1..], keep), f);
    assert MapSeq(head, f) == if keep(s[0]) then [f(s[0])] else [];
  }

  /** The in-order concatenation of the lists in `ss`. */
  function Flatten<T>(ss: seq<seq<T>>): (r: seq<T>)
    ensures forall i, j :: 0 <= i < |ss| && 0 <= j < |ss[i]| ==> ss[i][j] in r
  {
    if |ss| == 0 then []
    else
      assert forall i :: 0 < i < |ss| ==> ss[i] == ss[1..][i - 1];
      ss[0] + Flatten(ss[1..])
  }

  /** The sum of the lengths of the lists in `ss`. */
  function TotalLength<T>(ss: seq<seq<T>>): nat
  {
    if |ss| == 0 then 0 else |ss[0]| + TotalLength(ss[1..])
  }

  lemma {:induction false} FlattenLength<T>(ss: seq<seq<T>>)
    ensures |Flatten(ss)| == TotalLength(ss)
  {
    if |ss| != 0 {
      FlattenLength(ss[1..]);
    }
  }

  /** How many times `x` occurs in `s` (Go's strings.Count for one character). */
  function Count<T(==)>(s: seq<T>, x: T): nat
  {
    if |s| == 0 then 0 else (if s[0] == x then 1 else 0) + Count(s[1..], x)
  }

  lemma {:induction false} CountAppend<T>(a: seq<T>, b: seq<T>, x: T)
    ensures Count(a + b, x) == Count(a, x) + Count(b, x)
  {
    if |a| == 0 {
      assert a + b == b;
    } else {
      assert (a + b)[1..] == a[1..] + b;
      CountAppend(a[1..], b, x);
    }
  }

  lemma {:induction false} CountAbsent<T>(s: seq<T>, x: T)
    ensures x !in s <==> Count(s, x) == 0
  {
    if |s| != 0 {
      CountAbsent(s[1..], x);
      assert x in s <==> s[0] == x || x in s[1..];
    }
  }

  /** The list stored at `key`, or the empty list when `key` is absent (Go's nil slice). */
  function ListAt<K, V>(m: map<K, seq<V>>, key: K): seq<V>
  {
    if key in m then m[key] else []
  }

  /** Appends `v` to the list at `key`, creating the list when it is missing. */
  function AppendAt<K, V>(m: map<K, seq<V>>, key: K, v: V): (r: map<K, seq<V>>)
    ensures r.Keys == m.Keys + {key}
    ensures |r[key]| == |ListAt(m, key)| + 1
    ensures r[key][..|ListAt(m, key)|] == ListAt(m, key) && r[key][|ListAt(m, key)|] == v
    ensures forall k :: k in m && k != key ==> r[k] == m[k]
  {
    m[key := ListAt(m, key) + [v]]
  }

  /** The multiset of every element of every list held in `m`, ignoring map order. */
  ghost function Gathered<K, V>(m: map<K, seq<V>>): multiset<V>
    decreases |m.Keys|
  {
    if m == map[] then multiset{}
    else
      var k :| k in m.Keys;
      assert (m - {k}).Keys == m.Keys - {k};
      multiset(m[k]) + Gathered(m - {k})
  }

  /** Gathered can be split at any key, whichever key its definition happens to choose. */
  lemma {:induction false} GatheredSplit<K, V>(m: map<K, seq<V>>, key: K)
    requires key in m
    ensures Gathered(m) == multiset(m[key]) + Gathered(m - {key})
    decreases |m.Keys|
  {
    var k :| k in m.Keys && Gathered(m) == multiset(m[k]) + Gathered(m - {k});
    if k != key {
      assert (m - {k}).Keys == m.Keys - {k};
      assert (m - {key}).Keys == m.Keys - {key};
      GatheredSplit(m - {k}, key);
      GatheredSplit(m - {key}, k);
      assert m - {k} - {key} == m - {key} - {k};
    }
  }

  /** A second update of the same key overrides the first. */
  lemma UpdateTwice<K, V>(m: map<K, V>, key: K, a: V, b: V)
    ensures m[key := a][key := b] == m[key := b]
  {
  }

  /** Appending `xs` and then `ys` at the same key appends `xs + ys` there. */
  lemma AppendAllTwice<K, V>(m: map<K, seq<V>>, key: K, xs: seq<V>, ys: seq<V>)
    ensures var once := m[key := ListAt(m, key) + xs];
      once[key := ListAt(once, key) + ys] == m[key := ListAt(m, key) + (xs + ys)]
  {
    var once := m[key := ListAt(m, key) + xs];
    assert ListAt(once, key) + ys == ListAt(m, key) + (xs + ys);
    UpdateTwice(m, key, ListAt(m, key) + xs, ListAt(m, key) + (xs + ys));
  }
}
