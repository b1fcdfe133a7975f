/** The three ways the converters build their tables out of CSV rows:
    a dictionary filled row by row (a later row with the same key
    overwrites an earlier one), a `defaultdict(list)` that appends each
    row to the list of its key, and Python's stable `sorted(..., key=...)`
    on (sequence number, value) pairs. */
module Tables {

  /** The set of keys the rows carry. */
  function KeySet<R>(rows: seq<R>, key: R -> string): set<string> {
    set i | 0 <= i < |rows| :: key(rows[i])
  }

  lemma KeySetSnoc<R>(rows: seq<R>, key: R -> string)
    requires rows != []
    ensures KeySet(rows, key) == KeySet(rows[..|rows| - 1], key) + {key(rows[|rows| - 1])}
  {
    var pre := rows[..|rows| - 1];
    forall k | k in KeySet(rows, key) ensures k in KeySet(pre, key) + {key(rows[|rows| - 1])} {
      var i :| 0 <= i < |rows| && key(rows[i]) == k;
      if i < |rows| - 1 { assert key(pre[i]) == k; }
    }
    forall k | k in KeySet(pre, key) ensures k in KeySet(rows, key) {
      var i :| 0 <= i < |pre| && key(pre[i]) == k;
      assert key(rows[i]) == k;
    }
  }

  /** `{key(r): val(r) for r in rows}`, or the loop `d[key(r)] = val(r)`. */
  function IndexBy<R, V>(rows: seq<R>, key: R -> string, val: R -> V): (m: map<string, V>)
    ensures m.Keys == KeySet(rows, key)
  {
    if rows == [] then map[]
    else
      var last := rows[|rows| - 1];
      KeySetSnoc(rows, key);
      IndexBy(rows[..|rows| - 1], key, val)[key(last) := val(last)]
  }

  /** The entry for a key is made from the LAST row that carries it. */
  lemma {:induction false} IndexByLastWins<R, V>(rows: seq<R>, key: R -> string, val: R -> V, i: nat)
    requires i < |rows|
    requires forall j :: i < j < |rows| ==> key(rows[j]) != key(rows[i])
    ensures key(rows[i]) in IndexBy(rows, key, val)
    ensures IndexBy(rows, key, val)[key(rows[i])] == val(rows[i])
  {
    if i < |rows| - 1 {
      var pre := rows[..|rows| - 1];
      IndexByLastWins(pre, key, val, i);
    }
  }

  /** Every entry is made from some row that carries its key. */
  lemma {:induction false} IndexByFrom<R, V>(rows: seq<R>, key: R -> string, val: R -> V, k: string)
    requires k in IndexBy(rows, key, val)
    ensures exists i :: 0 <= i < |rows| && key(rows[i]) == k && IndexBy(rows, key, val)[k] == val(rows[i])
  {
    var n := |rows| - 1;
    if key(rows[n]) != k {
      IndexByFrom(rows[..n], key, val, k);
      var i :| 0 <= i < n && key(rows[..n][i]) == k && IndexBy(rows[..n], key, val)[k] == val(rows[..n][i]);
      assert rows[i] == rows[..n][i];
    }
  }

  /** The values `val(r)` of the rows whose key is `k`, in row order: what
      `groups[k]` holds after `for r in rows: groups[key(r)].append(val(r))`. */
  function Collect<R, V>(rows: seq<R>, key: R -> string, val: R -> V, k: string): (vs: seq<V>)
    ensures vs != [] <==> k in KeySet(rows, key)
    ensures |vs| <= |rows|
  {
    if rows == [] then []
    else
      var last := rows[|rows| - 1];
      KeySetSnoc(rows, key);
      Collect(rows[..|rows| - 1], key, val, k) + (if key(last) == k then [val(last)] else [])
  }

  /** Collecting over two runs of rows one after the other gives the first
      run's values followed by the second's: the lists keep file order. */
  lemma {:induction false} CollectAppend<R, V>(a: seq<R>, b: seq<R>, key: R -> string, val: R -> V, k: string)
    ensures Collect(a + b, key, val, k) == Collect(a, key, val, k) + Collect(b, key, val, k)
  {
    if b != [] {
      var b' := b[..|b| - 1];
      assert (a + b)[..|a + b| - 1] == a + b';
      CollectAppend(a, b', key, val, k);
    } else {
      assert a + b == a;
    }
  }

  /** A group holds exactly the values of the rows with its key. */
  lemma {:induction false} CollectMembers<R, V>(rows: seq<R>, key: R -> string, val: R -> V, k: string)
    ensures forall v :: v in Collect(rows, key, val, k) <==>
      exists i :: 0 <= i < |rows| && key(rows[i]) == k && val(rows[i]) == v
  {
    if rows != [] {
      var n := |rows| - 1;
      CollectMembers(rows[..n], key, val, k);
      forall v | (exists i :: 0 <= i < |rows| && key(rows[i]) == k && val(rows[i]) == v)
        ensures v in Collect(rows, key, val, k)
      {
        var i :| 0 <= i < |rows| && key(rows[i]) == k && val(rows[i]) == v;
        if i < n {
          assert rows[..n][i] == rows[i];
        }
      }
    }
  }

  lemma ConcatAssoc<T>(x: seq<T>, y: seq<T>, z: seq<T>)
    ensures x + (y + z) == (x + y) + z
  {
  }

  /** The `defaultdict(list)` after `for r in rows:
      groups[key(r)].append(val(r))`. */
  function Groups<R, V>(rows: seq<R>, key: R -> string, val: R -> V): map<string, seq<V>> {
    if rows == [] then map[]
    else
      var groups, last := Groups(rows[..|rows| - 1], key, val), rows[|rows| - 1];
      var existing := if key(last) in groups then groups[key(last)] else [];
      groups[key(last) := existing + [val(last)]]
  }

  /** One list per key seen, each holding the values of that key's rows in
      row order. */
  lemma {:induction false} GroupsAreCollections<R, V>(rows: seq<R>, key: R -> string, val: R -> V)
    ensures forall k :: k in Groups(rows, key, val) <==> k in KeySet(rows, key)
    ensures forall k :: k in Groups(rows, key, val) ==> Groups(rows, key, val)[k] == Collect(rows, key, val, k)
  {
    if rows != [] {
      GroupsAreCollections(rows[..|rows| - 1], key, val);
      KeySetSnoc(rows, key);
    }
  }

  /** `groups.get(k, [])`. */
  function Lookup<V>(groups: map<string, seq<V>>, k: string): seq<V> {
    if k in groups then groups[k] else []
  }

  /** Looking a key up gives the values of its rows, none for a key no row
      carries. */
  lemma LookupGroups<R, V>(rows: seq<R>, key: R -> string, val: R -> V, k: string)
    ensures Lookup(Groups(rows, key, val), k) == Collect(rows, key, val, k)
  {
    GroupsAreCollections(rows, key, val);
  }

  /** The `defaultdict(list)` loop. */
  method GroupAppend<R, V>(rows: seq<R>, key: R -> string, val: R -> V) returns (groups: map<string, seq<V>>)
    ensures groups == Groups(rows, key, val)
  {
    groups := map[];
    for i := 0 to |rows|
      invariant groups == Groups(rows[..i], key, val)
    {
      var k := key(rows[i]);
      var existing := if k in groups then groups[k] else [];
      assert rows[..i + 1][..i] == rows[..i];
      groups := groups[k := existing + [val(rows[i])]];
    }
    assert rows[..|rows|] == rows;
  }

  /** A (sequence number, value) pair, as the converters build before sorting. */
  datatype Keyed<V> = Keyed(key: int, value: V)

  ghost predicate SortedByKey<V>(s: seq<Keyed<V>>) {
    forall i, j :: 0 <= i < j < |s| ==> s[i].key <= s[j].key
  }

  /** The pairs with sequence number `k`, in order. */
  function WithKey<V>(s: seq<Keyed<V>>, k: int): seq<Keyed<V>> {
    if s == [] then []
    else (if s[0].key == k then [s[0]] else []) + WithKey(s[1..], k)
  }

  /** Places `x` before the first pair whose key is not smaller. */
  function Insert<V>(x: Keyed<V>, s: seq<Keyed<V>>): (r: seq<Keyed<V>>)
    ensures multiset(r) == multiset(s) + multiset{x}
  {
    if s == [] || x.key <= s[0].key then [x] + s
    else
      assert s == [s[0]] + s[1..];
      [s[0]] + Insert(x, s[1..])
  }

  lemma {:induction false} InsertSorted<V>(x: Keyed<V>, s: seq<Keyed<V>>)
    requires SortedByKey(s)
    ensures SortedByKey(Insert(x, s))
  {
    if s != [] && x.key > s[0].key {
      InsertSorted(x, s[1..]);
      var r := Insert(x, s);
      forall j | 1 <= j < |r| ensures s[0].key <= r[j].key {
        assert r[j] in multiset(Insert(x, s[1..]));
        assert r[j] == x || r[j] in s[1..];
      }
    }
  }

  /** Python's `sorted(s, key=lambda p: p[0])`: an insertion sort, stable. */
  function SortByKey<V>(s: seq<Keyed<V>>): (r: seq<Keyed<V>>)
    ensures SortedByKey(r)
    ensures multiset(r) == multiset(s)
  {
    if s == [] then []
    else
      assert s == [s[0]] + s[1..];
      InsertSorted(s[0], SortByKey(s[1..]));
      Insert(s[0], SortByKey(s[1..]))
  }

  lemma {:induction false} InsertWithKey<V>(x: Keyed<V>, s: seq<Keyed<V>>, k: int)
    ensures WithKey(Insert(x, s), k) == (if x.key == k then [x] else []) + WithKey(s, k)
  {
    if s != [] && x.key > s[0].key {
      var rest := Insert(x, s[1..]);
      InsertWithKey(x, s[1..], k);
      WithKeyCons(s[0], rest, k);
      WithKeyCons(s[0], s[1..], k);
      assert [s[0]] + s[1..] == s;
    } else {
      WithKeyCons(x, s, k);
    }
  }

  lemma WithKeyCons<V>(x: Keyed<V>, s: seq<Keyed<V>>, k: int)
    ensures WithKey([x] + s, k) == (if x.key == k then [x] else []) + WithKey(s, k)
  {
    assert ([x] + s)[1..] == s;
  }

  /** Stability: pairs with equal sequence numbers keep their input order. */
  lemma {:induction false} SortByKeyStable<V>(s: seq<Keyed<V>>, k: int)
    ensures WithKey(SortByKey(s), k) == WithKey(s, k)
  {
    if s != [] {
      SortByKeyStable(s[1..], k);
      InsertWithKey(s[0], SortByKey(s[1..]), k);
    }
  }

  /** `[v for _, v in sorted(pairs, key=lambda p: p[0])]`. */
  function SortedValues<V>(pairs: seq<Keyed<V>>): seq<V> {
    Values(SortByKey(pairs))
  }

  /** `[v for _, v in pairs]`. */
  function Values<V>(s: seq<Keyed<V>>): (vs: seq<V>)
    ensures |vs| == |s| && forall i :: 0 <= i < |s| ==> vs[i] == s[i].value
  {
    seq(|s|, i requires 0 <= i < |s| => s[i].value)
  }
}
