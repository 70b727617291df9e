/** The grant set and the broker as the objects they are: tables changed in place, proved against
    the functions of `BrokerState`. */
module Broker {
  import opened Common
  import opened FileSystem
  import opened FileSystemLaws
  import opened Filenames
  import opened BrokerState
  import opened BrokerSafety
  import Decimal

  /** A capability a component's manifest declares. */
  datatype Declared = Declared(kind: Capability, inputHandlesOnly: bool)

  /** What a manifest alone admits: its input-handle capabilities and nothing wider. */
  function Admitted(manifest: seq<Declared>): seq<Grant> {
    if manifest == [] then []
    else (if manifest[0].inputHandlesOnly then [Grant(manifest[0].kind, InputHandles)] else [])
         + Admitted(manifest[1..])
  }

  predicate Declares(manifest: seq<Declared>, kind: Capability) {
    exists c :: c in manifest && c.kind == kind
  }

  /** Every grant a node holds is for a capability its manifest declares. */
  ghost predicate GrantsAreDeclared(perNode: map<NodeId, seq<Grant>>, manifests: map<NodeId, seq<Declared>>) {
    forall node :: node in perNode ==>
      forall g :: g in perNode[node] ==> node in manifests && exists c :: c in manifests[node] && c.kind == g.kind
  }

  predicate DeclaresForInputs(manifest: seq<Declared>, kind: Capability) {
    exists c :: c in manifest && c.kind == kind && c.inputHandlesOnly
  }

  /** A manifest by itself admits exactly what it declares for input handles, and that for input handles only:
      whatever else it declares waits for somebody's decision. */
  lemma {:induction false} AdmittedIsDeclared(manifest: seq<Declared>, g: Grant)
    ensures g in Admitted(manifest) <==> g.scope == InputHandles && DeclaresForInputs(manifest, g.kind)
    ensures g in Admitted(manifest) ==> Declares(manifest, g.kind)
  {
    if manifest != [] {
      AdmittedIsDeclared(manifest[1..], g);
      assert forall c :: c in manifest <==> c == manifest[0] || c in manifest[1..];
    }
  }

  /** One grant for each such entry of the manifest, in its order. */
  lemma {:induction false} AdmittedOneByOne(manifest: seq<Declared>)
    ensures var asked := Filter((c: Declared) => c.inputHandlesOnly, manifest);
            var grants := Admitted(manifest);
            |grants| == |asked| && forall i :: 0 <= i < |grants| ==> grants[i] == Grant(asked[i].kind, InputHandles)
  {
    if manifest != [] {
      AdmittedOneByOne(manifest[1..]);
    }
  }

  /** So a node comes to hold grants of exactly those kinds besides the ones it held. */
  lemma HoldsMore(held: seq<Grant>, manifest: seq<Declared>, kind: Capability)
    ensures (exists g :: g in held + Admitted(manifest) && g.kind == kind)
        <==> (exists g :: g in held && g.kind == kind) || DeclaresForInputs(manifest, kind)
  {
    AdmittedIsDeclared(manifest, Grant(kind, InputHandles));
    forall g | g in Admitted(manifest) && g.kind == kind ensures DeclaresForInputs(manifest, kind) {
      AdmittedIsDeclared(manifest, g);
    }
    if DeclaresForInputs(manifest, kind) {
      assert Grant(kind, InputHandles) in held + Admitted(manifest);
    }
  }

  ghost predicate HoldsKind(perNode: map<NodeId, seq<Grant>>, node: NodeId, kind: Capability) {
    exists g :: g in Lookup(perNode, node, []) && g.kind == kind
  }

  lemma MoreDeclaredGrants(perNode: map<NodeId, seq<Grant>>, manifests: map<NodeId, seq<Declared>>, node: NodeId,
                           more: seq<Grant>)
    requires GrantsAreDeclared(perNode, manifests) && node in manifests
    requires forall g :: g in more ==> Declares(manifests[node], g.kind)
    ensures GrantsAreDeclared(perNode[node := Lookup(perNode, node, []) + more], manifests)
  {
    var held := Lookup(perNode, node, []);
    assert forall g :: g in held ==> node in manifests && Declares(manifests[node], g.kind);
  }

  class GrantSet {
    var perNode: map<NodeId, seq<Grant>>

    constructor ()
      ensures perNode == map[]
    {
      perNode := map[];
    }

    static method DeclaredInputHandles(manifest: seq<Declared>) returns (declared: seq<BrokerState.Grant>)
      ensures declared == Admitted(manifest)
    {
      declared := [];
      var i := 0;
      while i < |manifest|
        invariant 0 <= i <= |manifest|
        invariant declared + Admitted(manifest[i..]) == Admitted(manifest)
      {
        assert manifest[i..][1..] == manifest[i + 1..];
        if manifest[i].inputHandlesOnly {
          declared := declared + [BrokerState.Grant(manifest[i].kind, InputHandles)];
        }
        i := i + 1;
      }
    }

    method AllowDeclaredInputHandles(node: NodeId, manifest: seq<Declared>)
      modifies this
      ensures Lookup(perNode, node, []) == Lookup(old(perNode), node, []) + Admitted(manifest)
      ensures forall other :: other != node ==> Lookup(perNode, other, []) == Lookup(old(perNode), other, [])
      ensures forall manifests ::
                GrantsAreDeclared(old(perNode), manifests) && node in manifests && manifests[node] == manifest
                ==> GrantsAreDeclared(perNode, manifests)
      ensures forall kind :: HoldsKind(perNode, node, kind)
                <==> HoldsKind(old(perNode), node, kind) || DeclaresForInputs(manifest, kind)
    {
      forall g ensures g in Admitted(manifest) ==> Declares(manifest, g.kind) {
        AdmittedIsDeclared(manifest, g);
      }
      forall kind
        ensures (exists g :: g in Lookup(perNode, node, []) + Admitted(manifest) && g.kind == kind)
            <==> HoldsKind(perNode, node, kind) || DeclaresForInputs(manifest, kind)
      {
        HoldsMore(Lookup(perNode, node, []), manifest, kind);
      }
      var declared := DeclaredInputHandles(manifest);
      if declared != [] {
        forall manifests | GrantsAreDeclared(perNode, manifests) && node in manifests && manifests[node] == manifest
          ensures GrantsAreDeclared(perNode[node := Lookup(perNode, node, []) + declared], manifests)
        {
          MoreDeclaredGrants(perNode, manifests, node, declared);
        }
        perNode := perNode[node := Lookup(perNode, node, []) + declared];
      }
    }

    method Grant(node: NodeId, kind: Capability, scope: Scope)
      modifies this
      ensures perNode == old(perNode)[node := Lookup(old(perNode), node, []) + [BrokerState.Grant(kind, scope)]]
    {
      perNode := perNode[node := Lookup(perNode, node, []) + [BrokerState.Grant(kind, scope)]];
    }

    /** A decision relayed from outside counts only for a capability the component declared. */
    method GrantDeclared(node: NodeId, manifest: seq<Declared>, kind: Capability, scope: Scope) returns (admitted: bool)
      modifies this
      ensures admitted <==> exists c :: c in manifest && c.kind == kind
      ensures !admitted ==> perNode == old(perNode)
      ensures admitted ==>
                perNode == old(perNode)[node := Lookup(old(perNode), node, []) + [BrokerState.Grant(kind, scope)]]
      ensures forall manifests ::
                GrantsAreDeclared(old(perNode), manifests) && node in manifests && manifests[node] == manifest
                ==> GrantsAreDeclared(perNode, manifests)
    {
      if !Declares(manifest, kind) {
        return false;
      }
      forall manifests | GrantsAreDeclared(perNode, manifests) && node in manifests && manifests[node] == manifest
        ensures GrantsAreDeclared(perNode[node := Lookup(perNode, node, []) + [BrokerState.Grant(kind, scope)]],
                                  manifests)
      {
        MoreDeclaredGrants(perNode, manifests, node, [BrokerState.Grant(kind, scope)]);
      }
      Grant(node, kind, scope);
      return true;
    }
  }

  /** The machine's disk. */
  class Disk {
    var entries: Fs

    constructor (entries: Fs)
      ensures this.entries == entries
    {
      this.entries := entries;
    }
  }

  class Broker {
    const machine: Machine
    const disk: Disk
    const grants: map<NodeId, seq<BrokerState.Grant>>
    const runDir: RawPath
    var handles: map<nat, HandleEntry>
    var nextHandle: nat
    var reachable: map<NodeId, set<nat>>
    var calls: map<NodeId, seq<Call>>

    ghost function State(): BrokerState.State
      reads this, disk
    {
      BrokerState.State(grants, handles, nextHandle, runDir, reachable, calls, disk.entries)
    }

    constructor (machine: Machine, disk: Disk, runDir: RawPath, grantSet: GrantSet)
      ensures this.machine == machine && this.disk == disk && this.runDir == runDir
      ensures this.grants == grantSet.perNode
      ensures State() == BrokerState.State(grantSet.perNode, map[], 1, runDir, map[], map[], disk.entries)
    {
      this.machine, this.disk, this.runDir := machine, disk, runDir;
      this.grants := grantSet.perNode;
      handles, nextHandle, reachable, calls := map[], 1, map[], map[];
    }

    /** A broker has its run's directory, made on the way when it was not there. */
    static method New(machine: Machine, disk: Disk, runDir: RawPath, grantSet: GrantSet, fault: bool)
      returns (broker: Option<Broker>)
      modifies disk
      ensures broker.Some? <==> !fault && MakeDirs(old(disk.entries), runDir).Some?
      ensures !fault && ValidFs(old(disk.entries)) && MissingUnderFolder(old(disk.entries), runDir) ==> broker.Some?
      ensures broker.None? ==> disk.entries == old(disk.entries)
      ensures broker.Some? ==>
                && fresh(broker.value) && broker.value.machine == machine && broker.value.disk == disk
                && broker.value.State() == BrokerState.State(grantSet.perNode, map[], 1, runDir, map[], map[],
                                                             MakeDirs(old(disk.entries), runDir).value)
      ensures broker.Some? ==> ValidFs(old(disk.entries)) ==>
                NoLinksDirectlyIn(disk.entries, RunRoot(broker.value.State())) ==> Fresh(broker.value.State())
    {
      if ValidFs(disk.entries) && MissingUnderFolder(disk.entries, runDir) {
        MissingIsMade(disk.entries, runDir);
      }
      var made := if fault then None else MakeDirs(disk.entries, runDir);
      if made.None? {
        return None;
      }
      if ValidFs(disk.entries) {
        MakeDirsMakes(disk.entries, runDir);
      }
      disk.entries := made.value;
      var built := new Broker(machine, disk, runDir, grantSet);
      broker := Some(built);
    }

    // -- journal -----------------------------------------------------------------------------

    method Allow(node: NodeId, kind: Capability, detail: Detail)
      modifies this`calls
      ensures State() == BrokerState.Allow(old(State()), node, kind, detail)
    {
      calls := calls[node := Lookup(calls, node, []) + [Call(kind, detail, None)]];
    }

    /** Records the refusal and builds the error, so that neither happens without the other. */
    method Deny<T>(node: NodeId, kind: Capability, detail: Detail, because: Reason) returns (o: Outcome<T>)
      modifies this`calls
      ensures (State(), o) == BrokerState.Deny(old(State()), node, kind, detail, because)
    {
      calls := calls[node := Lookup(calls, node, []) + [Call(kind, detail, Some(because))]];
      o := Denied(because);
    }

    method TakeCalls(node: NodeId) returns (taken: seq<Call>)
      modifies this`calls
      ensures (State(), taken) == BrokerState.TakeCalls(old(State()), node)
      ensures Preserved(old(State()), State())
    {
      AllGrowingPreserves(State());
      taken := Lookup(calls, node, []);
      calls := calls - {node};
    }

    // -- host side ---------------------------------------------------------------------------

    method ImportFile(path: RawPath, kind: HandleKind) returns (handle: Handle)
      modifies this`handles, this`nextHandle
      ensures (State(), handle) == BrokerState.ImportFile(old(State()), path, kind)
      ensures Preserved(old(State()), State())
    {
      ImportPreserves(State(), path, kind);
      var id := nextHandle;
      nextHandle := nextHandle + 1;
      var displayName;
      match FileName(path) {
        case Some(name) => displayName := name;
        case None => displayName := "file-" + Decimal.Show(id);
      }
      handles := handles[id := HandleEntry(kind, path, displayName)];
      handle := Handle(id, kind);
    }

    method MakeReachable(node: NodeId, handle: Handle)
      modifies this`reachable
      ensures State() == BrokerState.MakeReachable(old(State()), node, handle.id)
      ensures Preserved(old(State()), State())
    {
      AllGrowingPreserves(State());
      reachable := reachable[node := Lookup(reachable, node, {}) + {handle.id}];
    }

    method Reclassify(handle: Handle, kind: HandleKind) returns (relabelled: Handle)
      modifies this`handles
      ensures (State(), relabelled) == BrokerState.Reclassify(old(State()), handle, kind)
      ensures Preserved(old(State()), State())
    {
      AllGrowingPreserves(State());
      if handle.id in handles {
        handles := handles[handle.id := handles[handle.id].(kind := kind)];
      }
      relabelled := Handle(handle.id, kind);
    }

    method HostRead(handle: Handle) returns (o: Outcome<Bytes>)
      ensures o == BrokerState.HostRead(State(), handle)
    {
      if handle.id !in handles {
        return Failed(MissingHandle);
      }
      o := ReadBounded(disk.entries, handles[handle.id].path);
    }

    // -- the component-facing surface ----------------------------------------------------------

    method OpenInput(node: NodeId, handle: Handle) returns (o: Outcome<Bytes>)
      modifies this`calls
      ensures (State(), o) == BrokerState.OpenInput(old(State()), node, handle)
      ensures Preserved(old(State()), State())
    {
      AllGrowingPreserves(State());
      var detail := AboutHandle(handle.kind, handle.id);
      if !Has(grants, node, FsRead) {
        o := Deny(node, FsRead, detail, ReadNotDeclared);
        return;
      }
      if !(node in reachable && handle.id in reachable[node]) {
        o := Deny(node, FsRead, detail, NotConnected);
        return;
      }
      if handle.id !in handles {
        o := Deny(node, FsRead, detail, NoSuchHandle);
        return;
      }
      var entry := handles[handle.id];
      if entry.kind != handle.kind {
        o := Deny(node, FsRead, detail, KindMismatch(entry.kind, handle.kind));
        return;
      }
      o := ReadBounded(disk.entries, entry.path);
      Allow(node, FsRead, detail);
    }

    method CreateOutput(node: NodeId, kind: HandleKind, suggested: string, fault: bool) returns (o: Outcome<Handle>)
      modifies this, disk
      ensures (State(), o) == BrokerState.CreateOutput(machine, old(State()), node, kind, suggested, fault)
      ensures !fault && ValidFs(old(disk.entries)) && MissingUnderFolder(old(disk.entries), runDir) ==> o.Done?
      ensures forall made :: Consistent(old(State()), made)
                ==> Consistent(State(), if o.Done? then made[o.value.id := node] else made)
    {
      CreatePreserves(machine, State(), node, kind, suggested, fault);
      CreatesWhereMissing(machine, State(), node, kind, suggested);
      var id := nextHandle;
      var safe := Sanitise(machine.unicode, suggested);
      var path := ScratchPath(runDir, id, safe);
      var made := if fault then None else MakeDirs(disk.entries, runDir);
      if made.None? {
        return Failed(WriteFailed);
      }
      disk.entries := made.value;
      nextHandle := nextHandle + 1;
      handles := handles[id := HandleEntry(kind, path, safe)];
      reachable := reachable[node := Lookup(reachable, node, {}) + {id}];
      Allow(node, FsWrite, AboutScratch(kind, id));
      o := Done(Handle(id, kind));
    }

    method WriteOutput(node: NodeId, handle: Handle, bytes: Bytes, fault: bool) returns (o: Outcome<()>)
      modifies this`calls, disk
      ensures (State(), o) == BrokerState.WriteOutput(old(State()), node, handle, bytes, fault)
      ensures forall made :: Consistent(old(State()), made) && handle.id in made && made[handle.id] == node
                ==> Consistent(State(), made)
    {
      WritePreserves(machine, State(), node, handle, bytes, fault);
      if handle.id !in handles {
        o := Deny(node, FsWrite, AboutId(handle.id), NoSuchHandle);
        return;
      }
      if !(node in reachable && handle.id in reachable[node]) {
        o := Deny(node, FsWrite, AboutId(handle.id), NotThisNodes);
        return;
      }
      var written := if fault then None else WriteFile(disk.entries, handles[handle.id].path, bytes);
      if written.None? {
        return Failed(WriteFailed);
      }
      disk.entries := written.value;
      o := Done(());
    }

    /** The refusals come in this order: what the node may write at all, whether there is something to
        save, where the folder really is, and only then the resolved folder and the name inside it. */
    method SaveTo(node: NodeId, handle: Handle, directory: RawPath, filename: string, fault: bool)
      returns (o: Outcome<RawPath>)
      modifies this`calls, disk
      ensures (State(), o) == BrokerState.SaveTo(machine, old(State()), node, handle, directory, filename, fault)
      ensures Preserved(old(State()), State())
    {
      SavePreserves(machine, State(), node, handle, directory, filename, fault);
      var safe := Sanitise(machine.unicode, filename);
      var detail := AboutSave(handle.id, safe);
      var granted := GrantedFolders(disk.entries, GrantsFor(grants, node, FsWrite));
      if granted == [] {
        o := Deny(node, FsWrite, detail, NoFolderAllowed);
        return;
      }
      if handle.id !in handles {
        o := Deny(node, FsWrite, detail, NoSuchHandle);
        return;
      }
      var source := handles[handle.id].path;
      var resolved := ResolveDir(disk.entries, directory);
      if resolved.None? {
        o := Deny(node, FsWrite, detail, FolderMissing);
        return;
      }
      var destination := RawOf(resolved.value) + [Down(safe)];
      var there := LinkStat(disk.entries, destination);
      if there.Some? && there.value.Link? {
        o := Deny(node, FsWrite, detail, LinkInTheWay);
        return;
      }
      if !Within(granted, resolved.value) {
        o := Deny(node, FsWrite, detail, FolderOutsideGrants);
        return;
      }
      if Within(ForbiddenTrees(disk.entries, machine.startupFolders), resolved.value) {
        o := Deny(node, FsWrite, detail, StartupFolder);
        return;
      }
      if there.Some? {
        o := Deny(node, FsWrite, detail, NameTaken);
        return;
      }
      var copied := if fault then None else CopyFile(disk.entries, source, destination);
      if copied.None? {
        return Failed(WriteFailed);
      }
      disk.entries := copied.value;
      Allow(node, FsWrite, detail);
      o := Done(destination);
    }

    method MoveTo(node: NodeId, handle: Handle, directory: RawPath, filename: string, copyFault: bool,
                  removeFault: bool)
      returns (o: Outcome<RawPath>)
      modifies this`calls, disk
      ensures (State(), o)
           == BrokerState.MoveTo(machine, old(State()), node, handle, directory, filename, copyFault, removeFault)
      ensures Preserved(old(State()), State())
    {
      MovePreserves(machine, State(), node, handle, directory, filename, copyFault, removeFault);
      if handle.id !in handles {
        o := Deny(node, FsWrite, AboutId(handle.id), NoSuchHandle);
        return;
      }
      var source := handles[handle.id].path;
      var sourceDir := if source == [] then None else ResolveDir(disk.entries, Front(source));
      if sourceDir.None? {
        o := Deny(node, FsWrite, AboutId(handle.id), SourceNotRemovable);
        return;
      }
      if !Within(GrantedFolders(disk.entries, GrantsFor(grants, node, FsWrite)), sourceDir.value) {
        o := Deny(node, FsWrite, AboutId(handle.id), SourceFolderNotAllowed);
        return;
      }
      assert RemovalRefusal(old(State()), node, handle).None?;
      o := SaveTo(node, handle, directory, filename, copyFault);
      if !o.Done? {
        return;
      }
      var removed := if removeFault then None else RemoveFile(disk.entries, source);
      if removed.None? {
        return Failed(MoveIncomplete);
      }
      disk.entries := removed.value;
      Allow(node, FsWrite, AboutMove(handle.id));
    }

    /** Bounded as it is built: the folder's content is not the grantor's to decide. */
    method ListDir(node: NodeId, directory: RawPath, limit: nat, read: Option<seq<DirItem>>)
      returns (o: Outcome<seq<DirEntry>>)
      modifies this`calls
      ensures (State(), o) == BrokerState.ListDir(old(State()), node, directory, limit, read)
      ensures Preserved(old(State()), State())
    {
      ListPreserves(State(), node, directory, limit, read);
      var name := FileName(directory);
      var detail := AboutName(if name.Some? then name.value else "folder");
      var resolved := ResolveDir(disk.entries, directory);
      if resolved.None? {
        o := Deny(node, FsRead, detail, FolderMissing);
        return;
      }
      var dir := resolved.value;
      if !Within(GrantedFolders(disk.entries, GrantsFor(grants, node, FsRead)), dir) {
        o := Deny(node, FsRead, detail, FolderNotReadable);
        return;
      }
      if read.None? {
        return Failed(ReadFailed);
      }
      var collected := CollectFiles(dir, read.value, limit);
      if collected.None? {
        o := Deny(node, FsRead, detail, TooManyFiles);
        return;
      }
      var files := SortByName(collected.value);
      Allow(node, FsRead, AboutListing(|collected.value|));
      o := Done(files);
    }

    static method CollectFiles(dir: Path, entries: seq<DirItem>, limit: nat) returns (collected: Option<seq<DirEntry>>)
      ensures collected == Collect(dir, entries, limit)
    {
      var files := [];
      var i := 0;
      while i < |entries|
        invariant 0 <= i <= |entries|
        invariant Collect(dir, entries[..i], limit) == Some(files)
      {
        var item := entries[i];
        assert Front(entries[..i + 1]) == entries[..i];
        if item.AFile? {
          if |files| >= limit {
            RefusedForGood(dir, entries, limit, i + 1);
            return None;
          }
          if item.metadata.Some? {
            files := files + [EntryOf(dir, item)];
          }
        }
        i := i + 1;
      }
      assert entries[..i] == entries;
      collected := Some(files);
    }

    method ImportGuarded(node: NodeId, path: RawPath, kind: HandleKind) returns (o: Outcome<Handle>)
      modifies this
      ensures (State(), o) == BrokerState.ImportGuarded(old(State()), node, path, kind)
      ensures Preserved(old(State()), State())
    {
      ImportFoundPreserves(State(), node, path, kind);
      var name := FileName(path);
      var detail := AboutName(if name.Some? then name.value else "file");
      var resolved := Canonicalize(disk.entries, path);
      if resolved.None? || !IsFile(disk.entries, resolved.value) {
        o := Deny(node, FsRead, detail, NotAFile);
        return;
      }
      if !Within(GrantedFolders(disk.entries, GrantsFor(grants, node, FsRead)), Parent(resolved.value)) {
        o := Deny(node, FsRead, detail, FolderNotReadable);
        return;
      }
      var handle := ImportFile(RawOf(resolved.value), kind);
      Allow(node, FsRead, AboutOpened(handle.id));
      o := Done(handle);
    }

    method CheckHttp(node: NodeId, host: string) returns (o: Outcome<()>)
      modifies this`calls
      ensures (State(), o) == BrokerState.CheckHttp(old(State()), node, host)
      ensures Preserved(old(State()), State())
    {
      AllGrowingPreserves(State());
      if host in AllowedHosts(GrantsFor(grants, node, NetHttp)) {
        Allow(node, NetHttp, AboutName(host));
        o := Done(());
      } else {
        o := Deny(node, NetHttp, AboutName(host), HostNotAllowed);
      }
    }

    method UseClipboard(node: NodeId, detail: string) returns (o: Outcome<()>)
      modifies this`calls
      ensures (State(), o) == BrokerState.UseClipboard(old(State()), node, detail)
      ensures Preserved(old(State()), State())
    {
      AllGrowingPreserves(State());
      if !Has(grants, node, Clipboard) {
        o := Deny(node, Clipboard, AboutName(detail), ClipboardNotDeclared);
        return;
      }
      Allow(node, Clipboard, AboutName(detail));
      o := Done(());
    }

    method Notify(node: NodeId, title: string) returns (o: Outcome<()>)
      modifies this`calls
      ensures (State(), o) == BrokerState.Notify(old(State()), node, title)
      ensures Preserved(old(State()), State())
    {
      AllGrowingPreserves(State());
      if !Has(grants, node, Notifications) {
        o := Deny(node, Notifications, AboutName(title), NotificationsNotDeclared);
        return;
      }
      Allow(node, Notifications, AboutName(title));
      o := Done(());
    }
  }

  lemma CreatesWhereMissing(m: Machine, s: BrokerState.State, node: NodeId, kind: HandleKind, suggested: string)
    ensures ValidFs(s.fs) && MissingUnderFolder(s.fs, s.runDir) ==>
              BrokerState.CreateOutput(m, s, node, kind, suggested, false).1.Done?
  {
    if ValidFs(s.fs) && MissingUnderFolder(s.fs, s.runDir) {
      MissingIsMade(s.fs, s.runDir);
    }
  }

  /** Once a listing has been given up on, no further item brings it back. */
  lemma {:induction false} RefusedForGood(dir: Path, items: seq<DirItem>, limit: nat, i: nat)
    requires i <= |items| && Collect(dir, items[..i], limit).None?
    ensures Collect(dir, items, limit).None?
    decreases |items|
  {
    if i == |items| {
      assert items[..i] == items;
    } else {
      assert Front(items)[..i] == items[..i];
      RefusedForGood(dir, Front(items), limit, i);
    }
  }
}
