/** Moving items to the recycle bin, restoring and purging them (recycle_bin.go).

    Any step may fail, and the process may end between any two: an operation that was cut off
    returns `CutOff` and leaves what a crash at that point leaves.  Other programs leave the
    items alone while an operation lasts. */
module RecycleBin {
  import opened Basics

  /** A file, a directory in the order in which it is listed, or something not supported. */
  datatype Tree = File(content: Bytes) | Directory(children: seq<Child>) | Special

  datatype Child = Child(name: string, tree: Tree)

  predicate Supported(leafOk: string -> bool, t: Tree) {
    match t
    case File(_) => true
    case Directory(children) =>
      forall i :: 0 <= i < |children| ==> leafOk(children[i].name) && Supported(leafOk, children[i].tree)
    case Special => false
  }

  datatype Metadata = Metadata(original: string, directory: bool)

  /** What is in the directory of a record. */
  datatype Record = Record(metadata: Option<Metadata>, payload: Option<Tree>, staging: Option<Tree>)

  datatype Bin = Bin(workspace: map<string, Tree>, records: map<string, Record>)

  function MetadataOf(path: string, t: Tree): Metadata {
    Metadata(path, t.Directory?)
  }

  /** A record that can be listed, restored and purged. */
  predicate Loadable(leafOk: string -> bool, r: Record) {
    && r.metadata.Some? && r.payload.Some? && r.staging.None?
    && Supported(leafOk, r.payload.value) && r.metadata.value.directory == r.payload.value.Directory?
  }

  /** The full item is in the record, which can be restored. */
  predicate Recorded(b: Bin, id: string, path: string, t: Tree) {
    id in b.records && b.records[id] == Record(Some(MetadataOf(path, t)), Some(t), None)
  }

  predicate InPlace(b: Bin, path: string, t: Tree) {
    path in b.workspace && b.workspace[path] == t
  }

  /** Nothing changes but at the given path and record. */
  predicate OthersKept(a: Bin, b: Bin, path: string, id: string) {
    && a.workspace - {path} == b.workspace - {path}
    && a.records - {id} == b.records - {id}
  }

  function AfterMove(b: Bin, path: string, id: string): Bin
    requires path in b.workspace
  {
    var t := b.workspace[path];
    Bin(b.workspace - {path}, b.records[id := Record(Some(MetadataOf(path, t)), Some(t), None)])
  }

  function AfterRestore(b: Bin, id: string): Bin
    requires id in b.records && b.records[id].metadata.Some? && b.records[id].payload.Some?
  {
    Bin(b.workspace[b.records[id].metadata.value.original := b.records[id].payload.value], b.records - {id})
  }

  /** Moving an item and restoring it leaves everything as it was. */
  lemma RoundTrip(leafOk: string -> bool, b: Bin, path: string, id: string)
    requires path in b.workspace && id !in b.records && Supported(leafOk, b.workspace[path])
    ensures
      var moved := AfterMove(b, path, id);
      && Loadable(leafOk, moved.records[id]) && moved.records[id].metadata.value.original !in moved.workspace
      && AfterRestore(moved, id) == b
  {
    var moved := AfterMove(b, path, id);
    assert moved.workspace[path := b.workspace[path]] == b.workspace;
    assert moved.records - {id} == b.records;
  }

  datatype Outcome = Done | Refused | Partial | CutOff

  class RecycleBin {
    var workspace: map<string, Tree>
    var records: map<string, Record>
    /** A copy under way in a hidden directory beside the place of a restored item. */
    var restoring: Option<Tree>
    const leafOk: string -> bool
    /** No step fails and the process does not end. */
    const steady: bool
    /** What undoes a failed step succeeds. */
    const reliable: bool

    ghost function Now(): Bin
      reads this
    {
      Bin(workspace, records)
    }

    method Fault() returns (fault: bool)
      ensures steady ==> !fault
    {
      fault := *;
      fault := fault && !steady;
    }

    /** Copies a tree piece by piece.  A copy that is reported as complete is exact. */
    method CopyTree(t: Tree) returns (ok: bool, copy: Tree)
      ensures ok ==> copy == t && Supported(leafOk, t)
      ensures steady ==> (ok <==> Supported(leafOk, t))
      decreases t
    {
      copy := Special;
      var fault := Fault();
      if fault || t.Special? {
        return false, copy;
      }
      if t.File? {
        return true, File(t.content);
      }
      var copied: seq<Child> := [];
      for i := 0 to |t.children|
        invariant copied == t.children[..i]
        invariant forall k :: 0 <= k < i ==> leafOk(t.children[k].name) && Supported(leafOk, t.children[k].tree)
      {
        var child := t.children[i];
        if !leafOk(child.name) {
          return false, Directory(copied);
        }
        var part;
        ok, part := CopyTree(child.tree);
        if !ok {
          return false, Directory(copied + [Child(child.name, part)]);
        }
        copied := copied + [Child(child.name, part)];
      }
      assert copied == t.children;
      return true, Directory(copied);
    }

    /** Removes an item of the workspace.  A failure may leave any part of it. */
    method RemoveItem(path: string) returns (ok: bool)
      requires path in workspace
      modifies `workspace
      ensures workspace - {path} == old(workspace) - {path} && (ok <==> path !in workspace)
      ensures steady ==> ok
    {
      var fault := Fault();
      ok := !fault;
      if ok {
        workspace := workspace - {path};
      } else {
        var left: Tree := *;
        workspace := workspace[path := left];
      }
    }

    /** Writes the directory of a new record with its metadata. */
    method CreateRecord(metadata: Metadata, id: string) returns (outcome: Outcome)
      requires id !in records
      modifies `records
      ensures records - {id} == old(records) && (id in records ==> records[id].payload.None?)
      ensures outcome == Done ==> records == old(records)[id := Record(Some(metadata), None, None)]
      ensures outcome != Partial && (steady ==> outcome == Done)
      ensures outcome == Refused && reliable ==> records == old(records)
    {
      outcome := Refused;
      var fault := Fault();
      if fault {
        return;
      }
      records := records[id := Record(None, None, None)];
      fault := Fault();
      if !fault {
        records := records[id := Record(Some(metadata), None, None)];
        fault := Fault();
      }
      if fault {
        outcome := DropRecord(id);
      } else {
        outcome := Done;
      }
    }

    /** Gives up a record without a payload, as far as that succeeds. */
    method DropRecord(id: string) returns (outcome: Outcome)
      modifies `records
      ensures records == old(records) || records == old(records) - {id}
      ensures outcome == Refused || (outcome == CutOff && !steady)
      ensures outcome == Refused && reliable ==> records == old(records) - {id}
    {
      var cut := Fault();
      if cut {
        return CutOff;
      }
      var stuck := Fault();
      if reliable || !stuck {
        records := records - {id};
      }
      return Refused;
    }

    /** Moves an item to the bin.  Whatever fails, and wherever it is cut off, the full item is in
        its place or in a record that can be restored. */
    method Move(path: string, id: string, crossVolume: bool) returns (outcome: Outcome)
      requires id !in records
      modifies `workspace, `records
      ensures path !in old(workspace) ==> outcome == Refused && Now() == old(Now())
      ensures path in old(workspace) ==>
                var t := old(workspace)[path];
                && (InPlace(Now(), path, t) || Recorded(Now(), id, path, t))
                && (outcome == Done ==> Now() == AfterMove(old(Now()), path, id))
                && (outcome == Partial ==> Recorded(Now(), id, path, t))
                && (steady ==> outcome == if Supported(leafOk, t) then Done else Refused)
      ensures OthersKept(old(Now()), Now(), path, id)
      ensures outcome == Refused ==> workspace == old(workspace) && (id in records ==> records[id].payload.None?)
      ensures outcome == Refused && reliable ==> Now() == old(Now())
    {
      if path !in workspace {
        return Refused;
      }
      var t := workspace[path];
      var changed := Fault();
      if changed || !Supported(leafOk, t) {
        return Refused;
      }
      outcome := CreateRecord(MetadataOf(path, t), id);
      if outcome != Done {
        return;
      }
      var fault := Fault();
      if !crossVolume {
        if fault {
          outcome := DropRecord(id);
          return;
        }
        workspace, records := workspace - {path}, records[id := records[id].(payload := Some(t))];
        outcome := Settle();
        return;
      }
      if fault {
        outcome := DropRecord(id);
        return;
      }
      outcome := CopyToRecord(path, id);
      if outcome == Done {
        outcome := RemoveSource(path);
      }
    }

    /** Makes a change durable; a failure is reported, and nothing is taken back. */
    method Settle() returns (outcome: Outcome)
      ensures outcome != Refused && (steady ==> outcome == Done)
    {
      var cut := Fault();
      var unsynced := Fault();
      return if cut then CutOff else if unsynced then Partial else Done;
    }

    /** Copies the item under a staging name and publishes the copy as the payload. */
    method CopyToRecord(path: string, id: string) returns (outcome: Outcome)
      requires path in workspace && Supported(leafOk, workspace[path])
      requires id in records && records[id] == Record(Some(MetadataOf(path, workspace[path])), None, None)
      modifies `records
      ensures records - {id} == old(records) - {id}
      ensures outcome == Done || outcome == Partial ==> Recorded(Now(), id, path, workspace[path])
      ensures outcome == Refused && id in records ==> records[id].payload.None?
      ensures outcome == Refused && reliable ==> id !in records
      ensures steady ==> outcome == Done
    {
      var ok, copy := CopyTree(workspace[path]);
      records := records[id := records[id].(staging := Some(copy))];
      var fault := Fault();
      if !ok || fault {
        outcome := DropRecord(id);
        return;
      }
      records := records[id := records[id].(payload := Some(copy), staging := None)];
      outcome := Settle();
    }

    /** Removes the original after the copy was published, unless it has changed. */
    method RemoveSource(path: string) returns (outcome: Outcome)
      requires path in workspace
      modifies `workspace
      ensures workspace - {path} == old(workspace) - {path}
      ensures outcome != Refused && (outcome == Done ==> path !in workspace)
      ensures steady ==> outcome == Done
    {
      var cut := Fault();
      var changed := Fault();
      if cut || changed {
        return if cut then CutOff else Partial;
      }
      var ok := RemoveItem(path);
      if !ok {
        return Partial;
      }
      outcome := Settle();
    }

    /** Checks a record: its metadata, nothing but the payload beside it, and a tree of the recorded
        kind. */
    method Loads(r: Record) returns (ok: bool)
      ensures ok <==> Loadable(leafOk, r)
    {
      match r
      case Record(Some(metadata), Some(payload), None) =>
        ok := Supported(leafOk, payload) && (if payload.Directory? then metadata.directory else !metadata.directory);
      case _ => ok := false;
    }

    /** Restores an item to where it was, if nothing is there.  Whatever fails, the full item is
        in its record or in its place. */
    method Restore(id: string, crossVolume: bool) returns (outcome: Outcome)
      modifies `workspace, `records, `restoring
      ensures if id in old(records) && Loadable(leafOk, old(records[id])) then
                var path, t := old(records[id]).metadata.value.original, old(records[id]).payload.value;
                && (InPlace(Now(), path, t) || (Recorded(Now(), id, path, t) && workspace == old(workspace)))
                && OthersKept(old(Now()), Now(), path, id)
                && (path in old(workspace) ==> outcome == Refused)
                && (outcome == Done ==> Now() == AfterRestore(old(Now()), id))
                && (outcome == Partial ==> InPlace(Now(), path, t))
                && (steady ==> outcome == if path in old(workspace) then Refused else Done)
              else outcome == Refused
      ensures outcome == Refused ==> Now() == old(Now())
    {
      if id !in records {
        return Refused;
      }
      var loads := Loads(records[id]);
      if !loads {
        return Refused;
      }
      var path, t := records[id].metadata.value.original, records[id].payload.value;
      var unavailable := Fault();
      if unavailable || path in workspace {
        return Refused;
      }
      if !crossVolume {
        var fault := Fault();
        if fault {
          return Refused;
        }
        workspace, records := workspace[path := t], records[id := records[id].(payload := None)];
      } else {
        outcome := CopyBack(path, t);
        if outcome != Done {
          return;
        }
        outcome := RemovePayload(id);
        if outcome != Done {
          return;
        }
      }
      outcome := RemoveRecord(id);
    }

    /** Copies the payload into a hidden directory and renames the copy to its place. */
    method CopyBack(path: string, t: Tree) returns (outcome: Outcome)
      requires path !in workspace && Supported(leafOk, t)
      modifies `workspace, `restoring
      ensures workspace == old(workspace) || workspace == old(workspace)[path := t]
      ensures outcome == Done || outcome == Partial ==> workspace == old(workspace)[path := t]
      ensures outcome == Refused ==> workspace == old(workspace)
      ensures outcome != CutOff ==> restoring.None?
      ensures steady ==> outcome == Done
    {
      var cut := Fault();
      if cut {
        return CutOff;
      }
      var ok, copy := CopyTree(t);
      restoring := Some(copy);
      var fault := Fault();
      if !ok || fault {
        restoring := None;
        return Refused;
      }
      workspace, restoring := workspace[path := copy], None;
      outcome := Settle();
    }

    /** Removes a payload that has been restored; a failure may leave any part of it. */
    method RemovePayload(id: string) returns (outcome: Outcome)
      requires id in records
      modifies `records
      ensures records - {id} == old(records) - {id} && id in records
      ensures records[id].metadata == old(records)[id].metadata && records[id].staging == old(records)[id].staging
      ensures outcome == Done ==> records[id].payload.None?
      ensures outcome != Refused && (steady ==> outcome == Done)
    {
      var fault := Fault();
      if fault {
        var left: Tree := *;
        records := records[id := records[id].(payload := Some(left))];
        return Partial;
      }
      records := records[id := records[id].(payload := None)];
      outcome := Settle();
    }

    /** Removes the metadata and then the directory of a record, which only succeeds when there is
        nothing else in it. */
    method RemoveRecord(id: string) returns (outcome: Outcome)
      requires id in records && records[id].payload.None? && records[id].staging.None?
      modifies `records
      ensures records - {id} == old(records) - {id}
      ensures outcome == Done ==> id !in records
      ensures id in records ==> records[id] == old(records)[id] || records[id] == old(records)[id].(metadata := None)
      ensures outcome != Refused && (steady ==> outcome == Done)
    {
      outcome := Settle();
      if outcome == Done {
        records := records[id := records[id].(metadata := None)];
        outcome := Settle();
      }
      if outcome == Done {
        records := records - {id};
        outcome := Settle();
      }
    }

    /** A user changes their mind: whether an item is renamed or copied on either way, it comes
        back with everything else as it was, or it is whole in one of the two places. */
    method MoveAndRestore(path: string, id: string, crossVolume: bool, crossBack: bool) returns (moved: Outcome, restored: Outcome)
      requires id !in records && path in workspace
      modifies `workspace, `records, `restoring
      ensures moved == Done && restored == Done ==> Now() == old(Now())
      ensures InPlace(Now(), path, old(workspace)[path]) || Recorded(Now(), id, path, old(workspace)[path])
      ensures OthersKept(old(Now()), Now(), path, id)
      ensures steady && Supported(leafOk, old(workspace)[path]) ==> moved == Done && restored == Done
    {
      restored := Refused;
      moved := Move(path, id, crossVolume);
      if moved == Done {
        restored := Restore(id, crossBack);
      }
    }

    /** Purges one record for good; nothing else is touched. */
    method Purge(id: string) returns (outcome: Outcome)
      modifies `records
      ensures records - {id} == old(records) - {id}
      ensures outcome == Done ==> id in old(records) && Loadable(leafOk, old(records[id])) && id !in records
      ensures !(id in old(records) && Loadable(leafOk, old(records[id]))) ==> outcome == Refused
      ensures outcome == Refused ==> records == old(records)
      ensures steady && id in old(records) && Loadable(leafOk, old(records[id])) ==> outcome == Done
    {
      if id !in records {
        return Refused;
      }
      var loads := Loads(records[id]);
      if !loads {
        return Refused;
      }
      outcome := RemovePayload(id);
      if outcome == Done {
        outcome := RemoveRecord(id);
      }
    }
  }
}
