/**
 * Python's `dict` as the account switcher uses it: entries kept in insertion
 * order, item assignment that overwrites in place or appends, `pop`/`del`,
 * and `update`. A dictionary is the sequence of its (key, value) entries.
 * The functions carry no quantified contracts; what they do to the entries
 * is stated by the lemmas below them.
 */
module OrderedDict {
  import opened Wrappers

  type Dict<K, V> = seq<(K, V)>

  /** `k in d`. */
  predicate HasKey<K(==), V>(d: Dict<K, V>, k: K) {
    exists i :: 0 <= i < |d| && d[i].0 == k
  }

  /** Every key occurs once, as in a real dictionary. */
  predicate NoDupKeys<K(==), V>(d: Dict<K, V>) {
    forall i, j :: 0 <= i < j < |d| ==> d[i].0 != d[j].0
  }

  /** `d.get(k)`: the value stored under `k`, if any. */
  function Get<K(==), V>(d: Dict<K, V>, k: K): (r: Option<V>)
    ensures r.Some? <==> HasKey(d, k)
  {
    if |d| == 0 then None
    else if d[0].0 == k then Some(d[0].1)
    else
      var r := Get(d[1..], k);
      assert HasKey(d[1..], k) ==> HasKey(d, k) by {
        if HasKey(d[1..], k) {
          var j :| 0 <= j < |d[1..]| && d[1..][j].0 == k;
          assert d[j + 1].0 == k;
        }
      }
      assert HasKey(d, k) ==> HasKey(d[1..], k) by {
        if HasKey(d, k) {
          var j :| 0 <= j < |d| && d[j].0 == k;
          assert d[1..][j - 1].0 == k;
        }
      }
      r
  }

  /** `d[k] = v`: an existing key keeps its position and gets the new value, a new key is appended at the end. */
  function Put<K(==), V>(d: Dict<K, V>, k: K, v: V): Dict<K, V> {
    if |d| == 0 then [(k, v)]
    else if d[0].0 == k then [(k, v)] + d[1..]
    else [d[0]] + Put(d[1..], k, v)
  }

  /** `del d[k]` / `d.pop(k)`: the entry for `k` goes, the others keep their order. */
  function Remove<K(==), V>(d: Dict<K, V>, k: K): Dict<K, V> {
    if |d| == 0 then []
    else if d[0].0 == k then Remove(d[1..], k)
    else [d[0]] + Remove(d[1..], k)
  }

  /** `d.update(other)`: every entry of `other`, in order, assigned into `d`. */
  function Update<K(==), V>(d: Dict<K, V>, other: Dict<K, V>): Dict<K, V>
    decreases |other|
  {
    if |other| == 0 then d
    else Update(Put(d, other[0].0, other[0].1), other[1..])
  }

  /** `d[new] = d.pop(old)`: the entry leaves its place and comes back last under the new key. */
  function Rename<K(==), V>(d: Dict<K, V>, oldKey: K, newKey: K): Dict<K, V>
    requires HasKey(d, oldKey)
  {
    Put(Remove(d, oldKey), newKey, Get(d, oldKey).value)
  }

  /** Without repeated keys, the entry at position `i` is what a lookup of its key finds. */
  lemma {:induction false} GetAt<K, V>(d: Dict<K, V>, i: nat)
    requires NoDupKeys(d) && i < |d|
    ensures Get(d, d[i].0) == Some(d[i].1)
  {
    if i > 0 {
      var tail := d[1..];
      assert d[0].0 != d[i].0;
      assert tail[i - 1] == d[i];
      assert NoDupKeys(tail) by {
        forall a, b | 0 <= a < b < |tail| ensures tail[a].0 != tail[b].0 {
          assert tail[a] == d[a + 1] && tail[b] == d[b + 1];
        }
      }
      GetAt(tail, i - 1);
    }
  }

  /** Assigning a new key appends it. */
  lemma {:induction false} PutNew<K, V>(d: Dict<K, V>, k: K, v: V)
    requires !HasKey(d, k)
    ensures Put(d, k, v) == d + [(k, v)]
  {
    if |d| > 0 {
      assert d[0].0 != k;
      var tail := d[1..];
      assert !HasKey(tail, k) by {
        forall j | 0 <= j < |tail| ensures tail[j].0 != k {
          assert tail[j] == d[j + 1];
        }
      }
      PutNew(tail, k, v);
      assert [d[0]] + (tail + [(k, v)]) == d + [(k, v)];
    }
  }

  /** Assigning an existing key replaces its entry where it stands. */
  lemma {:induction false} PutAt<K, V>(d: Dict<K, V>, k: K, v: V, i: nat)
    requires NoDupKeys(d) && i < |d| && d[i].0 == k
    ensures Put(d, k, v) == d[i := (k, v)]
  {
    if i > 0 {
      var tail := d[1..];
      assert d[0].0 != k;
      assert tail[i - 1] == d[i];
      assert NoDupKeys(tail) by {
        forall a, b | 0 <= a < b < |tail| ensures tail[a].0 != tail[b].0 {
          assert tail[a] == d[a + 1] && tail[b] == d[b + 1];
        }
      }
      PutAt(tail, k, v, i - 1);
      assert [d[0]] + tail[i - 1 := (k, v)] == d[i := (k, v)];
    } else {
      assert [(k, v)] + d[1..] == d[0 := (k, v)];
    }
  }

  /** `del` leaves no entry with the key, even where it occurred twice. */
  lemma {:induction false} RemoveDrops<K, V>(d: Dict<K, V>, k: K)
    ensures !HasKey(Remove(d, k), k)
  {
    if |d| > 0 {
      RemoveDrops(d[1..], k);
      var rest := Remove(d[1..], k);
      if d[0].0 != k {
        forall j | 0 <= j < |[d[0]] + rest| ensures ([d[0]] + rest)[j].0 != k {
          if j > 0 {
            assert ([d[0]] + rest)[j] == rest[j - 1];
          }
        }
      }
    }
  }

  /** Removing an absent key changes nothing. */
  lemma {:induction false} RemoveAbsent<K, V>(d: Dict<K, V>, k: K)
    requires !HasKey(d, k)
    ensures Remove(d, k) == d
  {
    if |d| > 0 {
      assert d[0].0 != k;
      var tail := d[1..];
      assert !HasKey(tail, k) by {
        forall j | 0 <= j < |tail| ensures tail[j].0 != k {
          assert tail[j] == d[j + 1];
        }
      }
      RemoveAbsent(tail, k);
      assert [d[0]] + tail == d;
    }
  }

  /** Removing the key at position `i` cuts out exactly that entry. */
  lemma {:induction false} RemoveAt<K, V>(d: Dict<K, V>, i: nat)
    requires NoDupKeys(d) && i < |d|
    ensures Remove(d, d[i].0) == d[..i] + d[i + 1..]
  {
    var k := d[i].0;
    var tail := d[1..];
    assert NoDupKeys(tail) by {
      forall a, b | 0 <= a < b < |tail| ensures tail[a].0 != tail[b].0 {
        assert tail[a] == d[a + 1] && tail[b] == d[b + 1];
      }
    }
    if i == 0 {
      assert !HasKey(tail, k) by {
        forall j | 0 <= j < |tail| ensures tail[j].0 != k {
          assert tail[j] == d[j + 1];
        }
      }
      RemoveAbsent(tail, k);
    } else {
      assert d[0].0 != k;
      assert tail[i - 1] == d[i];
      RemoveAt(tail, i - 1);
      assert [d[0]] + (tail[..i - 1] + tail[i..]) == d[..i] + d[i + 1..];
    }
  }

  /** After `d[k] = v`, `k` holds `v` and every other key holds what it held. */
  lemma {:induction false} PutGet<K, V>(d: Dict<K, V>, k: K, v: V, k': K)
    requires NoDupKeys(d)
    ensures NoDupKeys(Put(d, k, v))
    ensures Get(Put(d, k, v), k') == if k' == k then Some(v) else Get(d, k')
  {
    if HasKey(d, k) {
      var i :| 0 <= i < |d| && d[i].0 == k;
      PutAt(d, k, v, i);
      var r := d[i := (k, v)];
      assert forall j :: 0 <= j < |r| ==> r[j].0 == d[j].0;
      if k' == k {
        GetAt(r, i);
      } else if HasKey(d, k') {
        var j :| 0 <= j < |d| && d[j].0 == k';
        GetAt(r, j);
        GetAt(d, j);
      } else {
        assert !HasKey(r, k');
      }
    } else {
      PutNew(d, k, v);
      var r := d + [(k, v)];
      assert NoDupKeys(r);
      if k' == k {
        GetAt(r, |d|);
      } else if HasKey(d, k') {
        var j :| 0 <= j < |d| && d[j].0 == k';
        GetAt(r, j);
        GetAt(d, j);
      } else {
        assert !HasKey(r, k');
      }
    }
  }

  /** Cutting out the entry at position `i` keeps the keys unique and drops exactly that key. */
  lemma {:induction false} CutKeys<K, V>(d: Dict<K, V>, i: nat, x: K)
    requires NoDupKeys(d) && i < |d|
    ensures NoDupKeys(d[..i] + d[i + 1..])
    ensures HasKey(d[..i] + d[i + 1..], x) <==> HasKey(d, x) && x != d[i].0
  {
    var r := d[..i] + d[i + 1..];
    forall a, b | 0 <= a < b < |r| ensures r[a].0 != r[b].0 {
      var a' := if a < i then a else a + 1;
      var b' := if b < i then b else b + 1;
      assert r[a] == d[a'] && r[b] == d[b'];
    }
    if HasKey(r, x) {
      var j :| 0 <= j < |r| && r[j].0 == x;
      var j' := if j < i then j else j + 1;
      assert r[j] == d[j'];
    }
    if HasKey(d, x) && x != d[i].0 {
      var j :| 0 <= j < |d| && d[j].0 == x;
      var j' := if j < i then j else j - 1;
      assert r[j'] == d[j];
    }
  }

  /** After `del d[k]`, `k` is gone and every other key holds what it held. */
  lemma {:induction false} RemoveGet<K, V>(d: Dict<K, V>, k: K, k': K)
    requires NoDupKeys(d)
    ensures NoDupKeys(Remove(d, k))
    ensures !HasKey(Remove(d, k), k)
    ensures Get(Remove(d, k), k') == if k' == k then None else Get(d, k')
  {
    if HasKey(d, k) {
      var i :| 0 <= i < |d| && d[i].0 == k;
      RemoveAt(d, i);
      var r := d[..i] + d[i + 1..];
      CutKeys(d, i, k);
      CutKeys(d, i, k');
      if k' != k && HasKey(d, k') {
        var j :| 0 <= j < |d| && d[j].0 == k';
        GetAt(d, j);
        var j' := if j < i then j else j - 1;
        assert r[j'] == d[j];
        GetAt(r, j');
      }
    } else {
      RemoveAbsent(d, k);
    }
  }

  /** With disjoint keys, `d.update(other)` appends the entries of `other` in order. */
  lemma {:induction false} UpdateDisjoint<K, V>(d: Dict<K, V>, other: Dict<K, V>)
    requires forall i :: 0 <= i < |other| ==> !HasKey(d, other[i].0)
    requires NoDupKeys(other)
    ensures Update(d, other) == d + other
    decreases |other|
  {
    if |other| > 0 {
      PutNew(d, other[0].0, other[0].1);
      var d' := d + [other[0]];
      forall i | 0 <= i < |other[1..]|
        ensures !HasKey(d', other[1..][i].0)
      {
        assert other[1..][i] == other[i + 1];
        forall j | 0 <= j < |d'| ensures d'[j].0 != other[i + 1].0 {
          if j < |d| {
            assert d'[j] == d[j];
          }
        }
      }
      assert NoDupKeys(other[1..]) by {
        forall a, b | 0 <= a < b < |other[1..]| ensures other[1..][a].0 != other[1..][b].0 {
          assert other[1..][a] == other[a + 1] && other[1..][b] == other[b + 1];
        }
      }
      UpdateDisjoint(d', other[1..]);
      assert d' + other[1..] == d + other;
    }
  }

  /**
   * Renaming to an unused key removes exactly the old entry, keeps the others
   * in order, and appends the old value under the new key.
   */
  lemma {:induction false} RenameMoves<K, V>(d: Dict<K, V>, i: nat, newKey: K)
    requires NoDupKeys(d)
    requires i < |d|
    requires !HasKey(d, newKey)
    ensures Rename(d, d[i].0, newKey) == d[..i] + d[i + 1..] + [(newKey, d[i].1)]
    ensures NoDupKeys(Rename(d, d[i].0, newKey))
  {
    var rest := Remove(d, d[i].0);
    RemoveAt(d, i);
    GetAt(d, i);
    RemoveGet(d, d[i].0, newKey);
    PutNew(rest, newKey, d[i].1);
    PutGet(rest, newKey, d[i].1, newKey);
  }

  /** After a rename the new key holds the old key's value, the old key is gone, and nothing else changes. */
  lemma {:induction false} RenameGet<K, V>(d: Dict<K, V>, oldKey: K, newKey: K, k: K)
    requires NoDupKeys(d)
    requires HasKey(d, oldKey) && !HasKey(d, newKey)
    ensures NoDupKeys(Rename(d, oldKey, newKey))
    ensures Get(Rename(d, oldKey, newKey), k) ==
      if k == newKey then Get(d, oldKey) else if k == oldKey then None else Get(d, k)
  {
    RemoveGet(d, oldKey, k);
    RemoveGet(d, oldKey, newKey);
    PutGet(Remove(d, oldKey), newKey, Get(d, oldKey).value, k);
  }

  /** Assigning the same value twice is assigning it once. */
  lemma {:induction false} PutTwice<K, V>(d: Dict<K, V>, k: K, v: V)
    requires NoDupKeys(d)
    ensures Put(Put(d, k, v), k, v) == Put(d, k, v)
  {
    var once := Put(d, k, v);
    PutGet(d, k, v, k);
    var i :| 0 <= i < |once| && once[i].0 == k;
    GetAt(once, i);
    PutAt(once, k, v, i);
    assert once[i := (k, v)] == once;
  }
}
