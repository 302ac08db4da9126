/**
 The table of watched directories of `BaseLayer/DirectoryChanges.cpp`: a vector with NULL in its
 empty places. A watch is taken out with `assign(nIdx, NULL)`, which makes the vector `nIdx`
 NULLs, whatever else was in it.
*/
module WatchTable {
  import opened Optional

  type Id = nat
  type Table = seq<Option<Id>>

  predicate Listed(t: Table, id: Id) {
    Some(id) in t
  }

  /** The table with a watch in the first empty place, or behind all others. */
  function Added(t: Table, id: Id): (r: Table) {
    if t == [] then [Some(id)]
    else if t[0] == None then [Some(id)] + t[1..]
    else [t[0]] + Added(t[1..], id)
  }

  lemma {:induction false} AddedLists(t: Table, id: Id, x: Id)
    ensures Listed(Added(t, id), x) <==> x == id || Listed(t, x)
  {
    if t != [] {
      assert t == [t[0]] + t[1..];
      if t[0] != None {
        AddedLists(t[1..], id, x);
      }
    }
  }

  /** The watch goes into the first empty place, or behind all others if there is none. */
  lemma {:induction false} AddedAt(t: Table, id: Id, i: nat)
    requires i <= |t| && (forall k :: 0 <= k < i ==> t[k] != None) && (i < |t| ==> t[i] == None)
    ensures Added(t, id) == if i < |t| then t[i := Some(id)] else t + [Some(id)]
  {
    if i > 0 {
      AddedAt(t[1..], id, i - 1);
      assert t == [t[0]] + t[1..];
    }
  }

  /** The first place of a watch; the length of the table if it is not listed. */
  function Place(t: Table, id: Id): (r: nat)
    ensures r <= |t| && (r < |t| <==> Listed(t, id)) && (r < |t| ==> t[r] == Some(id))
    ensures forall i :: 0 <= i < r ==> t[i] != Some(id)
  {
    if t == [] || t[0] == Some(id) then 0
    else
      assert t == [t[0]] + t[1..];
      1 + Place(t[1..], id)
  }

  function Empty(n: nat): (r: Table) {
    seq(n, _ => None)
  }

  /** The table after a watch was taken out. */
  function Removed(t: Table, id: Id): (r: Table) {
    if Listed(t, id) then Empty(Place(t, id)) else t
  }

  /** Taking one watch out forgets all of them. */
  lemma RemovedForgetsAll(t: Table, id: Id, x: Id)
    requires Listed(t, id)
    ensures !Listed(Removed(t, id), x)
  {
    var n := Place(t, id);
    assert forall i :: 0 <= i < n ==> Empty(n)[i] == None;
  }

  /** The other watches stay listed if and only if there are none. */
  lemma OthersStayIff(t: Table, id: Id)
    requires Listed(t, id)
    ensures (forall x :: x != id && Listed(t, x) ==> Listed(Removed(t, id), x)) <==>
            forall x :: Listed(t, x) ==> x == id
  {
    hide Removed;
    forall x
      ensures !Listed(Removed(t, id), x)
    {
      RemovedForgetsAll(t, id, x);
    }
  }

  /** How the search for an empty place goes on at place `i`. */
  lemma AddedFrom(t: Table, i: nat, id: Id)
    requires i < |t|
    ensures t[i] == None ==> t[..i] + Added(t[i..], id) == t[i := Some(id)]
    ensures t[i] != None ==> t[..i] + Added(t[i..], id) == t[..i + 1] + Added(t[i + 1..], id)
  {
    hide Added;
    var head, rest := t[..i], t[i + 1..];
    AddedFirst(t[i..], id);
    assert t[i..][1..] == rest && t[i..][0] == t[i] && t[..i + 1] == head + [t[i]];
    if t[i] == None {
      assert head + ([Some(id)] + rest) == t[i := Some(id)];
    } else {
      Regroup(head, t[i], Added(rest, id));
    }
  }

  lemma AddedFirst(t: Table, id: Id)
    requires t != []
    ensures Added(t, id) == if t[0] == None then [Some(id)] + t[1..] else [t[0]] + Added(t[1..], id)
  {
  }

  lemma Regroup(a: Table, x: Option<Id>, b: Table)
    ensures a + ([x] + b) == a + [x] + b
  {
  }

  class Watcher {
    var directories: Table

    constructor ()
      ensures directories == []
    {
      directories := [];
    }

    method AddToWatchInfo(id: Id)
      modifies this
      ensures directories == Added(old(directories), id)
    {
      ghost var was := directories;
      var max := |directories|;
      var i := 0;
      while i < max
        invariant i <= max == |was| && directories == was
        invariant Added(was, id) == was[..i] + Added(was[i..], id)
      {
        AddedFrom(was, i, id);
        if directories[i] == None {
          directories := directories[i := Some(id)];
          return;
        }
        i := i + 1;
      }
      assert was[..max] == was && was[max..] == [];
      directories := directories + [Some(id)];
    }

    /** The place of a watch, -1 if it is not in the table. */
    method GetDirWatchInfo(id: Id) returns (nIdx: int)
      ensures nIdx == if Listed(directories, id) then Place(directories, id) else -1
    {
      var i := 0;
      while i < |directories|
        invariant i <= |directories| && forall k :: 0 <= k < i ==> directories[k] != Some(id)
      {
        if directories[i] == Some(id) {
          return i;
        }
        i := i + 1;
      }
      return -1;
    }

    /** Takes a watch out; returns whether it was listed. */
    method Remove(id: Id) returns (found: bool)
      modifies this
      ensures found == Listed(old(directories), id) && directories == Removed(old(directories), id)
    {
      var nIdx := GetDirWatchInfo(id);
      found := nIdx != -1;
      if found {
        directories := Empty(nIdx);
      }
    }

    /**
     Goes over the table to stop every watch in it, up to the length that the table had before.
     `inside` is false if that leads to a read past the end of what is left of the table.
    */
    method UnwatchAllDirectories() returns (inside: bool, stopped: seq<Id>)
      modifies this
      ensures inside <==> forall k :: 0 <= k < |old(directories)| - 1 ==> old(directories)[k] == None
      ensures inside ==> directories == [] && forall id :: id in stopped <==> Listed(old(directories), id)
      ensures !inside ==> |stopped| == 1 && Listed(old(directories), stopped[0])
    {
      ghost var was := directories;
      stopped := [];
      var max := |directories|;
      var i := 0;
      while i < max
        invariant i <= max == |was|
        invariant forall k :: 0 <= k < i - 1 ==> was[k] == None
        invariant if stopped == [] then directories == was && (i > 0 ==> was[i - 1] == None)
                  else i > 0 && was[i - 1] == Some(stopped[0]) && |stopped| == 1 && directories == Empty(i - 1)
      {
        if i >= |directories| {
          return false, stopped;
        }
        if directories[i] != None {
          stopped := stopped + [directories[i].value];
          directories := Empty(i);
        }
        i := i + 1;
      }
      directories := [];
      inside := true;
    }
  }
}
