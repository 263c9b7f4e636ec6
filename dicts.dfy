/** Python dicts keep insertion order, and the CSV writer emits metadata in
    that order, so a dict is modelled as an association list. Assigning to an
    existing key keeps its position; a new key goes to the end. */
module Dicts {

  import opened Wrappers

  /** The metadata dict: keys and values are strings. */
  type Dict = seq<(string, string)>

  predicate HasKey(d: Dict, k: string) {
    exists i | 0 <= i < |d| :: d[i].0 == k
  }

  predicate UniqueKeys(d: Dict) {
    forall i, j | 0 <= i < j < |d| :: d[i].0 != d[j].0
  }

  /** `d.get(k)` */
  function Get(d: Dict, k: string): (r: Option<string>)
    ensures r.None? <==> !HasKey(d, k)
    ensures r.Some? ==> exists i | 0 <= i < |d| :: d[i] == (k, r.value)
    decreases |d|
  {
    if d == [] then None
    else if d[0].0 == k then Some(d[0].1)
    else
      var r := Get(d[1..], k);
      assert r.Some? ==> exists i | 0 <= i < |d| :: d[i] == (k, r.value) by {
        if r.Some? {
          var i :| 0 <= i < |d[1..]| && d[1..][i] == (k, r.value);
          assert d[i + 1] == (k, r.value);
        }
      }
      assert HasKey(d, k) ==> HasKey(d[1..], k) by {
        if HasKey(d, k) {
          var i :| 0 <= i < |d| && d[i].0 == k;
          assert d[1..][i - 1].0 == k;
        }
      }
      r
  }

  /** `d[k] = v` */
  function Put(d: Dict, k: string, v: string): (r: Dict)
    ensures HasKey(d, k) ==> |r| == |d|
    ensures !HasKey(d, k) ==> r == d + [(k, v)]
    ensures forall i | 0 <= i < |d| :: r[i] == (if d[i].0 == k then (k, v) else d[i])
  {
    if HasKey(d, k) then seq(|d|, i requires 0 <= i < |d| => if d[i].0 == k then (k, v) else d[i])
    else d + [(k, v)]
  }

  /** `del d[k]` for a present key; nothing for an absent one. */
  function Remove(d: Dict, k: string): (r: Dict)
    ensures !HasKey(r, k)
    ensures forall i | 0 <= i < |r| :: r[i] in d && r[i].0 != k
    ensures forall i | 0 <= i < |d| && d[i].0 != k :: d[i] in r
    ensures !HasKey(d, k) ==> r == d
    decreases |d|
  {
    if d == [] then []
    else if d[0].0 == k then Remove(d[1..], k)
    else
      assert !HasKey(d, k) ==> !HasKey(d[1..], k) by {
        if HasKey(d[1..], k) {
          var i :| 0 <= i < |d[1..]| && d[1..][i].0 == k;
          assert d[i + 1].0 == k;
        }
      }
      [d[0]] + Remove(d[1..], k)
  }

  /** Deleting a key that only the entry at position `i` has leaves the
      entries before and after it, in their order. */
  lemma {:induction false} RemoveAt(d: Dict, k: string, i: nat)
    requires i < |d| && d[i].0 == k
    requires forall j | 0 <= j < |d| && j != i :: d[j].0 != k
    ensures Remove(d, k) == d[..i] + d[i + 1..]
    decreases i
  {
    var t := d[1..];
    if i == 0 {
      assert !HasKey(t, k) by {
        forall j | 0 <= j < |t| ensures t[j].0 != k {
          assert t[j] == d[j + 1];
        }
      }
      assert Remove(d, k) == t;
    } else {
      assert d[0].0 != k;
      forall j | 0 <= j < |t| && j != i - 1 ensures t[j].0 != k {
        assert t[j] == d[j + 1];
      }
      RemoveAt(t, k, i - 1);
      assert Remove(d, k) == [d[0]] + (t[..i - 1] + t[i..]);
      assert [d[0]] + t[..i - 1] == d[..i];
      assert t[i..] == d[i + 1..];
      assert [d[0]] + (t[..i - 1] + t[i..]) == ([d[0]] + t[..i - 1]) + t[i..];
    }
  }

  lemma GetPut(d: Dict, k: string, v: string, k': string)
    ensures Get(Put(d, k, v), k') == if k' == k then Some(v) else Get(d, k')
  {
    var r := Put(d, k, v);
    GetIndexed(r, k');
    GetIndexed(d, k');
    if HasKey(d, k) {
      assert HasKey(r, k) by {
        var i :| 0 <= i < |d| && d[i].0 == k;
        assert r[i].0 == k;
      }
    } else {
      assert r[|d|] == (k, v);
    }
  }

  /** `Get` finds the first entry with the key. */
  lemma GetIndexed(d: Dict, k: string)
    ensures Get(d, k).Some? ==> exists i | 0 <= i < |d| ::
      d[i] == (k, Get(d, k).value) && forall j | 0 <= j < i :: d[j].0 != k
    decreases |d|
  {
    if d != [] && d[0].0 != k {
      GetIndexed(d[1..], k);
      if Get(d, k).Some? {
        var i :| 0 <= i < |d[1..]| && d[1..][i] == (k, Get(d, k).value) && forall j | 0 <= j < i :: d[1..][j].0 != k;
        assert d[i + 1] == (k, Get(d, k).value);
      }
    }
  }

  lemma GetFirst(d: Dict, k: string, i: nat)
    requires i < |d| && d[i].0 == k && forall j | 0 <= j < i :: d[j].0 != k
    ensures Get(d, k) == Some(d[i].1)
    decreases i
  {
    if i > 0 {
      GetFirst(d[1..], k, i - 1);
    }
  }

  lemma GetRemove(d: Dict, k: string, k': string)
    ensures Get(Remove(d, k), k') == if k' == k then None else Get(d, k')
    decreases |d|
  {
    if d != [] {
      GetRemove(d[1..], k, k');
    }
  }

  lemma PutUnique(d: Dict, k: string, v: string)
    requires UniqueKeys(d)
    ensures UniqueKeys(Put(d, k, v))
  {

  }

  /** Deleting a key keeps the other keys unique. */
  lemma {:induction false} RemoveUnique(d: Dict, k: string)
    requires UniqueKeys(d)
    ensures UniqueKeys(Remove(d, k))
    decreases |d|
  {
    if d != [] {
      var t := d[1..];
      assert UniqueKeys(t) by {
        forall i, j | 0 <= i < j < |t| ensures t[i].0 != t[j].0 {
          assert t[i] == d[i + 1] && t[j] == d[j + 1];
        }
      }
      RemoveUnique(t, k);
      if d[0].0 != k {
        var rest := Remove(t, k);
        forall j | 0 <= j < |rest| ensures rest[j].0 != d[0].0 {
          var m :| 0 <= m < |t| && t[m] == rest[j];
          assert d[m + 1] == rest[j];
        }
        var r := [d[0]] + rest;
        forall i, j | 0 <= i < j < |r| ensures r[i].0 != r[j].0 {
          assert r[j] == rest[j - 1];
          if i > 0 {
            assert r[i] == rest[i - 1];
          }
        }
      }
    }
  }

  /** Appending an entry whose key is new is the same as putting it. */
  lemma PutNewKey(d: Dict, k: string, v: string)
    requires forall i | 0 <= i < |d| :: d[i].0 != k
    ensures Put(d, k, v) == d + [(k, v)]
  {
  }
}
