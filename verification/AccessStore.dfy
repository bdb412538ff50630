/** The allowlist file: a list of controllers that behaves like a map keyed by node identity. */
module AccessStore {
  import opened Basics

  datatype Capability =
    | ReadMetadata | FocusWorkspace | ControlSession | SendShortcut | CloseStream | ApprovePairing

  datatype AllowedController = AllowedController(
    nodeId: string, name: Option<string>, addedAt: int, capabilities: seq<Capability>)

  /** The first entry for a node, which is the one every reader uses. */
  function Lookup(entries: seq<AllowedController>, nodeId: string): Option<AllowedController> {
    if entries == [] then None
    else if entries[0].nodeId == nodeId then Some(entries[0])
    else Lookup(entries[1..], nodeId)
  }

  function Without(entries: seq<AllowedController>, nodeId: string): seq<AllowedController> {
    if entries == [] then []
    else if entries[0].nodeId == nodeId then Without(entries[1..], nodeId)
    else [entries[0]] + Without(entries[1..], nodeId)
  }

  function Allowed(entries: seq<AllowedController>, controller: AllowedController): seq<AllowedController> {
    Without(entries, controller.nodeId) + [controller]
  }

  /** The map the list stands for. */
  function AsMap(entries: seq<AllowedController>): map<string, AllowedController> {
    if entries == [] then map[] else AsMap(entries[1..])[entries[0].nodeId := entries[0]]
  }

  class FileAccessStore {
    var entries: seq<AllowedController>

    constructor (entries: seq<AllowedController>)
      ensures this.entries == entries
    {
      this.entries := entries;
    }

    /** `read` and `write` say whether the file operations succeed; a failed write leaves the file as it was. */
    method Allow(controller: AllowedController, read: bool, write: bool) returns (ok: bool)
      modifies this
      ensures ok == (read && write)
      ensures entries == if ok then Allowed(old(entries), controller) else old(entries)
    {
      if !read {
        return false;
      }
      var controllers := Retain(entries, controller.nodeId);
      controllers := controllers + [controller];
      if !write {
        return false;
      }
      entries := controllers;
      return true;
    }

    method Revoke(nodeId: string, read: bool, write: bool) returns (ok: bool)
      modifies this
      ensures ok == (read && write)
      ensures entries == if ok then Without(old(entries), nodeId) else old(entries)
    {
      if !read {
        return false;
      }
      var controllers := Retain(entries, nodeId);
      if !write {
        return false;
      }
      entries := controllers;
      return true;
    }
  }

  /** Keeps the entries of other nodes, in their order. */
  method Retain(entries: seq<AllowedController>, nodeId: string) returns (kept: seq<AllowedController>)
    ensures kept == Without(entries, nodeId)
  {
    kept := [];
    for i := 0 to |entries|
      invariant kept + Without(entries[i..], nodeId) == Without(entries, nodeId)
    {
      assert entries[i..][1..] == entries[i + 1..];
      if entries[i].nodeId != nodeId {
        kept := kept + [entries[i]];
      }
    }
  }

  /** A lookup finds the first entry of the node, and finds none only if there is none. */
  lemma {:induction false} LookupIsFirst(entries: seq<AllowedController>, nodeId: string)
    ensures Lookup(entries, nodeId).None? <==> forall i | 0 <= i < |entries| :: entries[i].nodeId != nodeId
    ensures Lookup(entries, nodeId).Some? ==>
              exists i :: 0 <= i < |entries| && entries[i] == Lookup(entries, nodeId).value
                          && entries[i].nodeId == nodeId && forall j | 0 <= j < i :: entries[j].nodeId != nodeId
  {
    if entries != [] {
      LookupIsFirst(entries[1..], nodeId);
      if entries[0].nodeId != nodeId && Lookup(entries, nodeId).Some? {
        var i :| 0 <= i < |entries[1..]| && entries[1..][i] == Lookup(entries, nodeId).value
          && forall j | 0 <= j < i :: entries[1..][j].nodeId != nodeId;
        assert entries[i + 1] == Lookup(entries, nodeId).value;
        forall j | 0 <= j < i + 1
          ensures entries[j].nodeId != nodeId
        {
          if j > 0 {
            assert entries[1..][j - 1] == entries[j];
          }
        }
      }
    }
  }

  lemma {:induction false} LookupAppend(entries: seq<AllowedController>, last: AllowedController, nodeId: string)
    ensures Lookup(entries + [last], nodeId)
         == if Lookup(entries, nodeId).Some? then Lookup(entries, nodeId)
            else if last.nodeId == nodeId then Some(last) else None
  {
    if entries == [] {
      assert entries + [last] == [last] && [last][1..] == [];
    } else {
      LookupAppend(entries[1..], last, nodeId);
      assert (entries + [last])[1..] == entries[1..] + [last];
    }
  }

  lemma {:induction false} LookupWithout(entries: seq<AllowedController>, removed: string, nodeId: string)
    ensures Lookup(Without(entries, removed), nodeId) == if nodeId == removed then None else Lookup(entries, nodeId)
  {
    if entries != [] {
      LookupWithout(entries[1..], removed, nodeId);
    }
  }

  lemma {:induction false} AsMapLooksUp(entries: seq<AllowedController>, nodeId: string)
    ensures nodeId in AsMap(entries) <==> Lookup(entries, nodeId).Some?
    ensures nodeId in AsMap(entries) ==> AsMap(entries)[nodeId] == Lookup(entries, nodeId).value
  {
    if entries != [] {
      AsMapLooksUp(entries[1..], nodeId);
    }
  }

  /** Allowing a controller updates the map at its own key and nowhere else, duplicates in the file or not. */
  lemma AllowRefinesUpdate(entries: seq<AllowedController>, controller: AllowedController)
    ensures AsMap(Allowed(entries, controller)) == AsMap(entries)[controller.nodeId := controller]
  {
    var after, update := AsMap(Allowed(entries, controller)), AsMap(entries)[controller.nodeId := controller];
    forall nodeId: string
      ensures nodeId in after <==> nodeId in update
      ensures nodeId in after ==> after[nodeId] == update[nodeId]
    {
      LookupWithout(entries, controller.nodeId, nodeId);
      LookupAppend(Without(entries, controller.nodeId), controller, nodeId);
      AsMapLooksUp(Allowed(entries, controller), nodeId);
      AsMapLooksUp(entries, nodeId);
    }
  }

  /** Revoking removes the key and nothing else. */
  lemma RevokeRefinesRemoval(entries: seq<AllowedController>, nodeId: string)
    ensures AsMap(Without(entries, nodeId)) == AsMap(entries) - {nodeId}
  {
    forall other: string
      ensures other in AsMap(Without(entries, nodeId)) <==> other in AsMap(entries) - {nodeId}
      ensures other in AsMap(Without(entries, nodeId))
          ==> AsMap(Without(entries, nodeId))[other] == (AsMap(entries) - {nodeId})[other]
    {
      LookupWithout(entries, nodeId, other);
      AsMapLooksUp(Without(entries, nodeId), other);
      AsMapLooksUp(entries, other);
    }
  }
}
