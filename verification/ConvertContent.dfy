/** What the two conversions that touch the host do with content: one copies it behind a handle of the
    node's own, the other believes a claim about it only after looking. */
module ConvertContent {
  import opened Common
  import opened FileSystem
  import opened Filenames
  import opened BrokerState
  import opened BrokerSafety
  import opened BrokerHandles
  import opened Convert
  import opened ConvertLaws

  /** In a consistent state, bytes written to a new scratch handle are what the host reads there. */
  lemma StoredIsRead(t: State, made: map<nat, NodeId>, node: NodeId, h: Handle, bytes: Bytes, fault: bool)
    requires Consistent(t, made) && h.id in made && |bytes| <= MAX_READ_BYTES
    requires WriteOutput(t, node, h, bytes, fault).1.Done?
    ensures HostRead(WriteOutput(t, node, h, bytes, fault).0, h) == Done(bytes)
  {
    var name := ScratchName(h.id, t.handles[h.id].displayName);
    var t' := WriteOutput(t, node, h, bytes, fault).0;
    ScratchWriteStaysInRunDir(t, made, node, h, bytes, fault);
    RunDirStays(t, t'.fs);
    WriteLandsAt(t.fs, t.runDir, RunRoot(t), name, bytes);
    ReadsWhatStandsThere(t'.fs, t.runDir, RunRoot(t), name);
  }

  lemma CreatedIsScratch(m: Machine, s: State, made: map<nat, NodeId>, node: NodeId, name: string, fault: bool)
    requires Consistent(s, made) && CreateOutput(m, s, node, OfBytes, name, fault).1.Done?
    ensures var (t, o) := CreateOutput(m, s, node, OfBytes, name, fault);
            Consistent(t, made[s.nextHandle := node]) && o.value == Handle(s.nextHandle, OfBytes)
            && CanReach(t, node, s.nextHandle)
  {
    CreatingIsSafe(m, s, made, node, OfBytes, name, fault);
  }

  lemma WritingKeepsReach(s: State, node: NodeId, h: Handle, bytes: Bytes, fault: bool, id: nat)
    ensures CanReach(WriteOutput(s, node, h, bytes, fault).0, node, id) == CanReach(s, node, id)
  {
  }

  lemma FilledIsRead(k: Library, t: State, made: map<nat, NodeId>, node: NodeId, out: Handle, bytes: Bytes)
    requires Consistent(t, made) && out.id in made && |bytes| <= MAX_READ_BYTES && CanReach(t, node, out.id)
    requires FillScratch(k, out, bytes, node, t).1.Done?
    ensures var (t', o) := FillScratch(k, out, bytes, node, t);
            o.value == HandleValue(out) && HostRead(t', out) == Done(bytes) && CanReach(t', node, out.id)
  {
    StoredIsRead(t, made, node, out, bytes, k.writeFails(out.id));
    WritingKeepsReach(t, node, out, bytes, k.writeFails(out.id), out.id);
  }

  lemma StoreCopies(k: Library, s: State, made: map<nat, NodeId>, node: NodeId, bytes: Bytes)
    requires Consistent(s, made) && |bytes| <= MAX_READ_BYTES && StoreInScratch(k, bytes, node, s).1.Done?
    ensures var (t, o) := StoreInScratch(k, bytes, node, s);
            var copy := Handle(s.nextHandle, OfBytes);
            o.value == HandleValue(copy) && HostRead(t, copy) == Done(bytes) && CanReach(t, node, copy.id)
  {
    var name, fails := StoreFills(k, bytes, node, s);
    CreatedIsScratch(k.machine, s, made, node, name, fails);
    var t := CreateOutput(k.machine, s, node, OfBytes, name, fails).0;
    FilledIsRead(k, t, made[s.nextHandle := node], node, Handle(s.nextHandle, OfBytes), bytes);
  }

  /** `read-bytes` answers a new handle of the node's own, behind which stands exactly what the host read
      through the old one. */
  lemma ReadBytesCopies(k: Library, s: State, made: map<nat, NodeId>, node: NodeId, h: Handle)
    requires Consistent(s, made) && ApplyOne(k, HandleValue(h), ReadBytes, node, s).1.Done?
    ensures var (t, o) := ApplyOne(k, HandleValue(h), ReadBytes, node, s);
            var copy := Handle(s.nextHandle, OfBytes);
            && o.value == HandleValue(copy)
            && HostRead(s, h).Done? && HostRead(t, copy) == HostRead(s, h)
            && CanReach(t, node, copy.id)
  {
    StoreCopies(k, s, made, node, HostRead(s, h).value);
  }

  /** What `read-bytes` answers otherwise: the host's own failure if it cannot read, and a failed write, with the
      broker as it was, if no scratch file can be made. */
  lemma ReadBytesAnswers(k: Library, s: State, node: NodeId, h: Handle)
    ensures HostRead(s, h).Failed? ==>
              ApplyOne(k, HandleValue(h), ReadBytes, node, s) == (s, Failed(HostRead(s, h).code))
    ensures HostRead(s, h).Done? && (k.createFails(s.nextHandle) || MakeDirs(s.fs, s.runDir).None?) ==>
              ApplyOne(k, HandleValue(h), ReadBytes, node, s) == (s, Failed(WriteFailed))
  {
  }

  lemma FilledKeepsHandles(k: Library, out: Handle, bytes: Bytes, node: NodeId, t: State)
    ensures var (u, o) := FillScratch(k, out, bytes, node, t);
            u.handles == t.handles && u.nextHandle == t.nextHandle && (o.Failed? ==> o.code == WriteFailed)
  {
  }

  lemma CreatedRecord(m: Machine, s: State, node: NodeId, kind: HandleKind, name: string, fault: bool)
    requires CreateOutput(m, s, node, kind, name, fault).1.Done?
    ensures var t, safe := CreateOutput(m, s, node, kind, name, fault).0, Sanitise(m.unicode, name);
            && t.handles
               == s.handles[s.nextHandle := HandleEntry(kind, ScratchPath(s.runDir, s.nextHandle, safe), safe)]
            && t.nextHandle == s.nextHandle + 1
  {
  }

  /** Once the scratch file is made its number stays issued, bytes in it or not, under the name `content.bin`. */
  lemma CopyStaysIssued(k: Library, s: State, node: NodeId, bytes: Bytes, name: string)
    requires name == "content.bin"
    requires !k.createFails(s.nextHandle) && MakeDirs(s.fs, s.runDir).Some?
    ensures var (t, o) := StoreInScratch(k, bytes, node, s);
            var safe := Sanitise(k.machine.unicode, name);
            && t.nextHandle == s.nextHandle + 1
            && t.handles
               == s.handles[s.nextHandle := HandleEntry(OfBytes, ScratchPath(s.runDir, s.nextHandle, safe), safe)]
            && (o.Failed? ==> o.code == WriteFailed)
  {
    var (t, created) := CreateOutput(k.machine, s, node, OfBytes, name, k.createFails(s.nextHandle));
    CreatedRecord(k.machine, s, node, OfBytes, name, k.createFails(s.nextHandle));
    FilledKeepsHandles(k, created.value, bytes, node, t);
  }

  /** What `decode-image` answers otherwise: the host's own failure, or that this is no image. */
  lemma NarrowAnswers(k: Library, s: State, node: NodeId, h: Handle)
    ensures HostRead(s, h).Failed? ==>
              ApplyOne(k, HandleValue(h), DecodeImage, node, s) == (s, Failed(HostRead(s, h).code))
    ensures HostRead(s, h).Done? && !k.isImage(HostRead(s, h).value) ==>
              ApplyOne(k, HandleValue(h), DecodeImage, node, s) == (s, Failed(NotAnImage))
    ensures !HostRead(s, h).Denied?
  {
  }

  /** `decode-image` succeeds exactly on a handle whose content is an image, changes nothing but what the host
      has the handle down as, and a second one finds nothing to do and succeeds again. */
  lemma NarrowsOnce(k: Library, s: State, node: NodeId, h: Handle)
    ensures var (t, o) := ApplyOps(k, HandleValue(h), [DecodeImage], node, s);
            && (o.Done? <==> HostRead(s, h).Done? && k.isImage(HostRead(s, h).value))
            && t == s.(handles := t.handles) && t.handles.Keys == s.handles.Keys && HostRead(t, h) == HostRead(s, h)
            && (o.Done? ==> o.value == HandleValue(Handle(h.id, OfImage)) && t.handles[h.id].kind == OfImage)
            && (!o.Done? ==> t == s)
    ensures ApplyOps(k, HandleValue(h), [DecodeImage, DecodeImage], node, s)
         == ApplyOps(k, HandleValue(h), [DecodeImage], node, s)
  {
    var (t, o) := ApplyOne(k, HandleValue(h), DecodeImage, node, s);
    assert [DecodeImage, DecodeImage][1..] == [DecodeImage] && [DecodeImage][1..] == [];
    if o.Done? {
      var (u, p) := ApplyOne(k, o.value, DecodeImage, node, t);
      assert u.handles == t.handles;
    }
  }

  /** Booleans and integers: true is one and nothing but zero is false. */
  lemma BoolSurvivesInt(k: Library, b: bool, i: Int64, node: NodeId, s: State)
    ensures ApplyOps(k, Bool(b), [BoolToInt, IntToBool], node, s) == (s, Done(Bool(b)))
    ensures ApplyOps(k, Int(i), [IntToBool, BoolToInt], node, s) == (s, Done(Int(if i == 0 then 0 else 1)))
  {
    assert [BoolToInt, IntToBool][1..] == [IntToBool] && [IntToBool][1..] == [];
    assert [IntToBool, BoolToInt][1..] == [BoolToInt] && [BoolToInt][1..] == [];
  }
}
