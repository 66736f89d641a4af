/**
 * `Dictionary<string, V>` built with `StringComparer.OrdinalIgnoreCase`, as the parser uses it:
 * an association list in insertion order (the order `foreach` enumerates a dictionary that
 * nothing is removed from), whose keys are distinct ignoring case. Overwriting an existing
 * key keeps the spelling it was first inserted with.
 */
module CaseDict {
  import opened Wrappers
  import opened Text

  datatype Entry<V> = Entry(key: string, value: V)

  type Dict<V> = seq<Entry<V>>

  /** The dictionary's key invariant: no two keys are equal ignoring case. */
  predicate UniqueKeys<V>(d: Dict<V>) {
    forall i, j :: 0 <= i < j < |d| ==> Fold(d[i].key) != Fold(d[j].key)
  }

  /** The keys, folded to their case-insensitive form. */
  function FoldedKeys<V>(d: Dict<V>): set<string> {
    set i | 0 <= i < |d| :: Fold(d[i].key)
  }

  /** The slot whose key equals `k` ignoring case (the first one, should there be several). */
  function Find<V>(d: Dict<V>, k: string): (r: Option<nat>)
    ensures r.Some? ==> r.value < |d| && Fold(d[r.value].key) == Fold(k)
    ensures r.Some? ==> forall i :: 0 <= i < r.value ==> Fold(d[i].key) != Fold(k)
    ensures r.None? <==> Fold(k) !in FoldedKeys(d)
  {
    if d == [] then None
    else
      var init := d[..|d| - 1];
      assert d == init + [d[|d| - 1]];
      FoldedKeysAppend(init, d[|d| - 1]);
      match Find(init, k)
      case Some(i) => Some(i)
      case None => if Fold(d[|d| - 1].key) == Fold(k) then Some(|d| - 1) else None
  }

  /** `TryGetValue`. */
  function Get<V>(d: Dict<V>, k: string): Option<V>
  {
    match Find(d, k)
    case None => None
    case Some(i) => Some(d[i].value)
  }

  /**
   * The indexer setter `d[k] = v`: replaces the value of an existing key in its slot,
   * keeping the key's first spelling, or appends a new entry.
   */
  function Put<V>(d: Dict<V>, k: string, v: V): (r: Dict<V>)
    ensures |d| <= |r| <= |d| + 1
    ensures forall i :: 0 <= i < |d| ==> r[i].key == d[i].key
    ensures Fold(k) in FoldedKeys(d) ==> |r| == |d|
    ensures Fold(k) !in FoldedKeys(d) ==> r == d + [Entry(k, v)]
    ensures forall i :: 0 <= i < |r| ==> r[i].value == v || (i < |d| && r[i] == d[i])
    ensures forall i :: 0 <= i < |d| && Fold(d[i].key) != Fold(k) ==> r[i] == d[i]
    ensures Find(d, k).Some? ==> r[Find(d, k).value] == Entry(d[Find(d, k).value].key, v)
  {
    match Find(d, k)
    case None => d + [Entry(k, v)]
    case Some(i) => d[i := Entry(d[i].key, v)]
  }

  /** Reading after `d[k] = v`: `k` now gives `v`, every other key what it gave before. */
  lemma {:induction false} GetPut<V>(d: Dict<V>, k: string, v: V, k': string)
    ensures Get(Put(d, k, v), k') == if Fold(k') == Fold(k) then Some(v) else Get(d, k')
  {
    var r := Put(d, k, v);
    match Find(d, k)
    case None =>
      PutFindOthers(d, r, k, v);
    case Some(i) =>
      FindUnchangedKeys(d, r, k');
  }

  /** `d[k] = v` adds `k` to the key set and keeps the keys distinct ignoring case. */
  lemma {:induction false} PutKeys<V>(d: Dict<V>, k: string, v: V)
    ensures FoldedKeys(Put(d, k, v)) == FoldedKeys(d) + {Fold(k)}
    ensures UniqueKeys(d) ==> UniqueKeys(Put(d, k, v))
  {
    var r := Put(d, k, v);
    match Find(d, k)
    case None =>
      FoldedKeysAppend(d, Entry(k, v));
    case Some(i) =>
      assert forall j :: 0 <= j < |d| ==> Fold(r[j].key) == Fold(d[j].key);
      assert FoldedKeys(r) == FoldedKeys(d);
  }

  /** Writing a key twice leaves what writing it once with the second value leaves. */
  lemma PutPut<V>(d: Dict<V>, k: string, v: V, w: V)
    ensures Put(Put(d, k, v), k, w) == Put(d, k, w)
  {
    var r := Put(d, k, v);
    match Find(d, k)
    case None =>
      PutFindOthers(d, r, k, v);
    case Some(i) =>
      FindUnchangedKeys(d, r, k);
  }

  /**
   * Get-or-create, then store: storing `start` first when the key is missing makes no
   * difference once `v` is stored over it.
   */
  lemma PutOverCreate<V>(d: Dict<V>, k: string, start: V, v: V)
    ensures Put(if Get(d, k).None? then Put(d, k, start) else d, k, v) == Put(d, k, v)
  {
    if Get(d, k).None? {
      PutPut(d, k, start, v);
    }
  }

  /** Keys equal ignoring case look up the same entry. */
  lemma {:induction false} GetFolded<V>(d: Dict<V>, a: string, b: string)
    requires Fold(a) == Fold(b)
    ensures Find(d, a) == Find(d, b) && Get(d, a) == Get(d, b)
  {
    if d != [] {
      GetFolded(d[..|d| - 1], a, b);
    }
  }

  /** Finding a key only looks at keys, so replacing values does not move it. */
  lemma {:induction false} FindUnchangedKeys<V>(d: Dict<V>, r: Dict<V>, k: string)
    requires |r| == |d|
    requires forall i :: 0 <= i < |d| ==> r[i].key == d[i].key
    ensures Find(r, k) == Find(d, k)
  {
    if d != [] {
      FindUnchangedKeys(d[..|d| - 1], r[..|r| - 1], k);
    }
  }

  lemma PutFindOthers<V>(d: Dict<V>, r: Dict<V>, k: string, v: V)
    requires Fold(k) !in FoldedKeys(d)
    requires r == d + [Entry(k, v)]
    ensures Find(r, k) == Some(|d|)
    ensures forall k' :: Fold(k') != Fold(k) ==> Find(r, k') == Find(d, k')
  {
    assert r[..|r| - 1] == d;
  }

  lemma FoldedKeysAppend<V>(d: Dict<V>, e: Entry<V>)
    ensures FoldedKeys(d + [e]) == FoldedKeys(d) + {Fold(e.key)}
  {
    var r := d + [e];
    forall x | x in FoldedKeys(r) ensures x in FoldedKeys(d) + {Fold(e.key)} {
      var i :| 0 <= i < |r| && x == Fold(r[i].key);
      if i < |d| { assert r[i] == d[i]; }
    }
    forall x | x in FoldedKeys(d) + {Fold(e.key)} ensures x in FoldedKeys(r) {
      if x == Fold(e.key) {
        assert Fold(r[|d|].key) == x;
      } else {
        var i :| 0 <= i < |d| && x == Fold(d[i].key);
        assert r[i] == d[i];
      }
    }
  }
}
