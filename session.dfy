/** The browser-side state the callbacks of a dashboard read and write: the
    data store of each loaded dataset and the unsaved-changes flags. A
    callback that raises `PreventUpdate`, or that raises an exception, writes
    nothing back; a callback that returns writes its outputs. */
module Session {

  import opened Wrappers
  import opened Text
  import opened Frames
  import opened Dicts
  import opened Stores
  import RowSets

  /** A store that the callbacks keep consistent: rectangular table, one
      entry per metadata key. */
  predicate ValidStore(s: Store) {
    WellFormed(s) && UniqueKeys(s.metadata)
  }

  /** A loaded store with its table cleared; name and metadata stay. */
  function ClearedStore(s: Store): (r: Store)
    requires WellFormed(s) && s.data.Some?
    ensures r.filename == s.filename && r.metadata == s.metadata
    ensures r.data == Some(RowSets.FilterForClearing(s.data.value))
  {
    s.(data := Some(RowSets.FilterForClearing(s.data.value)))
  }

  /** What a click on a tool's clear button reports. */
  datatype ClearOutcome =
    | Prevented                         // no clear button has been clicked
    | NothingLoaded                     // "No data was loaded to clear."
    | Filtered(before: nat, after: nat) // "... filtered in memory from <before> to <after> rows."
    | Raised                            // the callback raised; nothing is written back

  /** What the clear button of the root progress dashboard reports: the row
      counts of each loaded dataset, the original one first. */
  datatype RootOutcome =
    | RootPrevented
    | RootRaised
    | Cleared(counts: seq<(nat, nat)>)

  class Dashboard {
    /** `original-data-store` and `compare-data-store`; an absent prefix
        holds no dataset. */
    var stores: map<Prefix, Store>
    /** `unsaved-changes-store` */
    var unsaved: map<Prefix, bool>

    predicate Valid()
      reads this
    {
      forall p | p in stores :: ValidStore(stores[p])
    }

    /** The layout's initial state: nothing loaded, nothing unsaved. */
    constructor ()
      ensures Valid()
      ensures stores == map[] && unsaved == map[Original := false, Comparison := false]
    {
      stores := map[];
      unsaved := map[Original := false, Comparison := false];
    }

    /** The "Add" button of a metadata table: stores the stripped value
        under the stripped key. It needs a click, a non-empty key, a value
        (which may be empty) and a loaded dataset. */
    method AddMetadata(p: Prefix, clicks: nat, key: Option<string>, value: Option<string>) returns (applied: bool)
      requires Valid()
      modifies this
      ensures Valid()
      ensures applied <==> clicks > 0 && key.Some? && key.value != "" && value.Some? && p in old(stores)
      ensures !applied ==> stores == old(stores) && unsaved == old(unsaved)
      ensures applied ==>
        var s := old(stores)[p];
        && stores == old(stores)[p := s.(metadata := Put(s.metadata, Strip(key.value), Strip(value.value)))]
        && unsaved == old(unsaved)[p := true]
        && Get(stores[p].metadata, Strip(key.value)) == Some(Strip(value.value))
        && forall k | k != Strip(key.value) :: Get(stores[p].metadata, k) == Get(s.metadata, k)
    {
      if clicks == 0 || key.None? || key.value == "" || value.None? {
        return false;
      }
      if p !in stores {
        return false;
      }
      var s := stores[p];
      var k, v := Strip(key.value), Strip(value.value);
      var md := Put(s.metadata, k, v);
      PutUnique(s.metadata, k, v);
      GetPut(s.metadata, k, v, k);
      forall k' | k' != k ensures Get(md, k') == Get(s.metadata, k') {
        GetPut(s.metadata, k, v, k');
      }
      stores := stores[p := s.(metadata := md)];
      unsaved := unsaved[p := true];
      applied := true;
    }

    /** An edit in the value field of a metadata row: written when the
        dataset is loaded and the value differs from the stored one (an
        absent key counts as different). */
    method UpdateMetadata(p: Prefix, key: string, value: string) returns (applied: bool)
      requires Valid()
      modifies this
      ensures Valid()
      ensures applied <==> p in old(stores) && Get(old(stores)[p].metadata, key) != Some(value)
      ensures !applied ==> stores == old(stores) && unsaved == old(unsaved)
      ensures applied ==>
        var s := old(stores)[p];
        && stores == old(stores)[p := s.(metadata := Put(s.metadata, key, value))]
        && unsaved == old(unsaved)[p := true]
      ensures p in stores ==> Get(stores[p].metadata, key) == Some(value)
    {
      if p !in stores || Get(stores[p].metadata, key) == Some(value) {
        return false;
      }
      var s := stores[p];
      PutUnique(s.metadata, key, value);
      GetPut(s.metadata, key, value, key);
      stores := stores[p := s.(metadata := Put(s.metadata, key, value))];
      unsaved := unsaved[p := true];
      applied := true;
    }

    /** The delete button of a metadata row: removes a key the loaded
        dataset has. `clicked` says whether the triggering button has a
        click count. */
    method DeleteMetadata(p: Prefix, clicked: bool, key: string) returns (applied: bool)
      requires Valid()
      modifies this
      ensures Valid()
      ensures applied <==> clicked && p in old(stores) && HasKey(old(stores)[p].metadata, key)
      ensures !applied ==> stores == old(stores) && unsaved == old(unsaved)
      ensures applied ==>
        var s := old(stores)[p];
        && stores == old(stores)[p := s.(metadata := Remove(s.metadata, key))]
        && unsaved == old(unsaved)[p := true]
        && Get(stores[p].metadata, key) == None
        && forall k | k != key :: Get(stores[p].metadata, k) == Get(s.metadata, k)
    {
      if !clicked || p !in stores || !HasKey(stores[p].metadata, key) {
        return false;
      }
      var s := stores[p];
      var md := Remove(s.metadata, key);
      RemoveUnique(s.metadata, key);
      forall k | true ensures Get(md, k) == if k == key then None else Get(s.metadata, k) {
        GetRemove(s.metadata, key, k);
      }
      stores := stores[p := s.(metadata := md)];
      unsaved := unsaved[p := true];
      applied := true;
    }

    /** The clear button of one dataset in the progress tool: the table is
        replaced by its cleared rows and the dataset is marked unsaved. A
        store without table text cannot be read back, and the callback
        raises. */
    method ClearTool(p: Prefix, clicked: bool) returns (r: ClearOutcome)
      requires Valid()
      modifies this
      ensures Valid()
      ensures !clicked ==> r == Prevented
      ensures clicked && p !in old(stores) ==> r == NothingLoaded
      ensures clicked && p in old(stores) && old(stores)[p].data.None? ==> r == Raised
      ensures !r.Filtered? ==> stores == old(stores) && unsaved == old(unsaved)
      ensures r.Filtered? ==>
        var s := old(stores)[p];
        && clicked && p in old(stores) && s.data.Some?
        && stores == old(stores)[p := ClearedStore(s)]
        && unsaved == old(unsaved)[p := true]
        && r == Filtered(Counts(s).0, Counts(s).1)
    {
      if !clicked {
        return Prevented;
      }
      if p !in stores {
        return NothingLoaded;
      }
      var s := stores[p];
      if s.data.None? {
        return Raised;
      }
      var f := s.data.value;
      var g := RowSets.FilterForClearing(f);
      stores := stores[p := ClearedStore(s)];
      unsaved := unsaved[p := true];
      r := Filtered(f.nrows, g.nrows);
    }

    /** The clear button of the measurement tool: the callback calls a
        filter that the file does not define, so a click on a loaded
        dataset raises and nothing changes. */
    method ClearMeasurementTool(p: Prefix, clicked: bool) returns (r: ClearOutcome)
      requires Valid()
      ensures !clicked ==> r == Prevented
      ensures clicked ==> (r == NothingLoaded <==> p !in stores)
      ensures clicked ==> (r == Raised <==> p in stores)
      ensures !r.Filtered?
    {
      if !clicked {
        return Prevented;
      }
      if p !in stores {
        return NothingLoaded;
      }
      return Raised;
    }

    /** The clear button of the root progress dashboard: every loaded
        dataset is cleared, the original one first; the root dashboard has
        no unsaved-changes flags. */
    method ClearRoot(clicks: nat) returns (r: RootOutcome)
      requires Valid()
      modifies this
      ensures Valid() && unsaved == old(unsaved)
      ensures clicks == 0 ==> r == RootPrevented
      ensures clicks > 0 ==>
        (r == RootRaised <==> exists p | p in old(stores) :: old(stores)[p].data.None?)
      ensures !r.Cleared? ==> stores == old(stores)
      ensures r.Cleared? ==>
        && stores.Keys == old(stores).Keys
        && (forall p | p in stores :: old(stores)[p].data.Some? && stores[p] == ClearedStore(old(stores)[p]))
        && r.counts == RootCounts(old(stores))
    {
      if clicks == 0 {
        return RootPrevented;
      }
      var before := stores;
      var next := stores;
      var counts: seq<(nat, nat)> := [];
      if Original in stores {
        var s := stores[Original];
        if s.data.None? {
          return RootRaised;
        }
        next := next[Original := ClearedStore(s)];
        counts := counts + [Counts(s)];
      }
      if Comparison in stores {
        var s := stores[Comparison];
        if s.data.None? {
          return RootRaised;
        }
        next := next[Comparison := ClearedStore(s)];
        counts := counts + [Counts(s)];
      }
      forall p | p in before ensures before[p].data.Some? && next[p] == ClearedStore(before[p]) {
        if p == Original {
        } else {
          assert p == Comparison;
        }
      }
      stores := next;
      r := Cleared(counts);
    }
  }

  /** The row counts before and after clearing a loaded store. */
  function Counts(s: Store): (r: (nat, nat))
    requires WellFormed(s) && s.data.Some?
    ensures r.0 == s.data.value.nrows && r.1 == ClearedStore(s).data.value.nrows
  {
    (s.data.value.nrows, RowSets.FilterForClearing(s.data.value).nrows)
  }

  /** The row counts before and after clearing of each loaded dataset, the
      original one first. */
  function RootCounts(stores: map<Prefix, Store>): (r: seq<(nat, nat)>)
    requires forall p | p in stores :: WellFormed(stores[p]) && stores[p].data.Some?
    ensures |r| <= 2 && (r == [] <==> stores == map[])
    ensures Original in stores ==> r[0] == Counts(stores[Original])
    ensures Comparison in stores ==> r[|r| - 1] == Counts(stores[Comparison])
  {
    var o := if Original in stores then [Counts(stores[Original])] else [];
    var c := if Comparison in stores then [Counts(stores[Comparison])] else [];
    assert stores != map[] ==> Original in stores || Comparison in stores by {
      if stores != map[] {
        var p :| p in stores;
        if p == Comparison {
          assert Comparison in stores;
        }
      }
    }
    o + c
  }

  /** Clearing a cleared store changes nothing: a second click on a clear
      button reports as many rows after as before. */
  lemma ClearTwice(s: Store)
    requires WellFormed(s) && s.data.Some?
    ensures WellFormed(ClearedStore(s))
    ensures ClearedStore(ClearedStore(s)) == ClearedStore(s)
  {
    RowSets.ClearingIdempotent(s.data.value);
  }
}
