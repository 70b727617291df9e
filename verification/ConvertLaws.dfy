/** What chains of conversions promise. */
module ConvertLaws {
  import opened Common
  import opened BrokerState
  import opened Convert
  import BrokerHandles

  predicate MapFree(ops: seq<Op>) {
    forall op :: op in ops ==> !op.Map?
  }

  /** Chains that only look at the value. */
  predicate ValueOnly(ops: seq<Op>) {
    forall op :: op in ops ==> !op.ReadBytes? && !op.DecodeImage?
  }

  // -- composition ---------------------------------------------------------------------------

  /** A chain can be cut anywhere before its first `map`: the halves run one after the other, the
      second from whatever value and broker the first left, and a failure of the first is final. */
  lemma {:induction false} ChainsCompose(k: Library, v: Value, a: seq<Op>, b: seq<Op>, node: NodeId, s: State)
    requires MapFree(a)
    ensures var (t, o) := ApplyOps(k, v, a, node, s);
            ApplyOps(k, v, a + b, node, s) == if o.Done? then ApplyOps(k, o.value, b, node, t) else (t, o)
    decreases |a|
  {
    if a == [] {
      assert a + b == b;
    } else {
      assert (a + b)[0] == a[0] && (a + b)[1..] == a[1..] + b;
      assert a[0] in a;
      var (t, o) := ApplyOne(k, v, a[0], node, s);
      if o.Done? {
        ChainsCompose(k, o.value, a[1..], b, node, t);
      }
    }
  }

  // -- absence --------------------------------------------------------------------------------

  /** "No value" goes through a chain untouched, and the broker with it, exactly when nothing in the
      chain insists on a value: no `unwrap-option` and no `map`. */
  lemma {:induction false} AbsenceSurvivesExactly(k: Library, ops: seq<Op>, node: NodeId, s: State)
    ensures ApplyOps(k, Absent, ops, node, s) ==
              (s, if forall op :: op in ops ==> !op.Map? && !op.UnwrapOption? then Done(Absent)
                  else Failed(ConversionFailed))
    decreases |ops|
  {
    if ops != [] {
      assert ops[0] in ops && forall op :: op in ops <==> op == ops[0] || op in ops[1..];
      if !ops[0].Map? && !ops[0].UnwrapOption? {
        AbsenceSurvivesExactly(k, ops[1..], node, s);
      }
    }
  }

  // -- map ---------------------------------------------------------------------------------------

  lemma {:induction false} ValueOnlyKeepsBroker(k: Library, v: Value, ops: seq<Op>, node: NodeId, s: State)
    requires ValueOnly(ops)
    ensures ApplyOps(k, v, ops, node, s).0 == s
    decreases |ops|, 0
  {
    if ops != [] {
      assert ops[0] in ops && forall op :: op in ops[1..] ==> op in ops;
      if ops[0].Map? {
        if v.List? {
          EachKeepsBroker(k, v.items, ops[1..], node, s);
        }
      } else if ApplyOne(k, v, ops[0], node, s).1.Done? {
        ValueOnlyKeepsBroker(k, ApplyOne(k, v, ops[0], node, s).1.value, ops[1..], node, s);
      }
    }
  }

  lemma {:induction false} EachKeepsBroker(k: Library, items: seq<Value>, ops: seq<Op>, node: NodeId, s: State)
    requires ValueOnly(ops)
    ensures ApplyToEach(k, items, ops, node, s).0 == s
    decreases |ops|, 1 + |items|
  {
    if items != [] {
      EachKeepsBroker(k, Front(items), ops, node, s);
      ValueOnlyKeepsBroker(k, Last(items), ops, node, s);
    }
  }

  /** What a chain makes of a value when it only looks at the value. */
  function Result(k: Library, v: Value, ops: seq<Op>, node: NodeId, s: State): Outcome<Value> {
    ApplyOps(k, v, ops, node, s).1
  }

  /** A conversion of a list succeeds exactly when it succeeds on every element, and then it has the
      same length and is the element's own conversion at every place. */
  lemma {:induction false} EachIsPointwise(k: Library, items: seq<Value>, ops: seq<Op>, node: NodeId, s: State)
    requires ValueOnly(ops)
    ensures var o := ApplyToEach(k, items, ops, node, s).1;
            && (o.Done? <==> forall i :: 0 <= i < |items| ==> Result(k, items[i], ops, node, s).Done?)
            && (o.Done? ==> |o.value| == |items|)
            && (o.Done? ==>
                  forall i :: 0 <= i < |items| ==> Result(k, items[i], ops, node, s) == Done(o.value[i]))
    decreases |items|
  {
    if items != [] {
      var front, n := Front(items), |items| - 1;
      EachIsPointwise(k, front, ops, node, s);
      EachKeepsBroker(k, front, ops, node, s);
      var before := ApplyToEach(k, front, ops, node, s).1;
      var o := ApplyToEach(k, items, ops, node, s).1;
      if !before.Done? {
        var i :| 0 <= i < n && !Result(k, front[i], ops, node, s).Done?;
        assert items[i] == front[i];
      } else {
        forall i | 0 <= i < |items| && i != n ensures Result(k, items[i], ops, node, s) == Done(before.value[i]) {
          assert items[i] == front[i];
        }
        if !Result(k, Last(items), ops, node, s).Done? {
          assert items[n] == Last(items);
        }
      }
    }
  }

  /** `map` in front of a chain is that, for a list; anything else is an error. */
  lemma MapIsPointwise(k: Library, v: Value, ops: seq<Op>, node: NodeId, s: State)
    requires ValueOnly(ops)
    ensures var o := ApplyOps(k, v, [Map] + ops, node, s).1;
            && (o.Done? <==> v.List? && forall i :: 0 <= i < |v.items| ==> Result(k, v.items[i], ops, node, s).Done?)
            && (o.Done? ==> o.value.List? && |o.value.items| == |v.items|)
            && (o.Done? ==>
                  forall i :: 0 <= i < |v.items| ==> Result(k, v.items[i], ops, node, s) == Done(o.value.items[i]))
  {
    assert ([Map] + ops)[1..] == ops;
    if v.List? {
      EachIsPointwise(k, v.items, ops, node, s);
    }
  }

  /** Mapping one chain and then another is mapping both at once: same success, same value. */
  lemma MapsFuse(k: Library, v: Value, a: seq<Op>, b: seq<Op>, node: NodeId, s: State)
    requires MapFree(a) && ValueOnly(a) && ValueOnly(b)
    ensures var first := ApplyOps(k, v, [Map] + a, node, s).1;
            var second := if first.Done? then ApplyOps(k, first.value, [Map] + b, node, s).1 else first;
            var both := ApplyOps(k, v, [Map] + (a + b), node, s).1;
            (both.Done? <==> second.Done?) && (both.Done? ==> both.value == second.value)
  {
    MapIsPointwise(k, v, a, node, s);
    MapIsPointwise(k, v, a + b, node, s);
    var first := ApplyOps(k, v, [Map] + a, node, s).1;
    var both := ApplyOps(k, v, [Map] + (a + b), node, s).1;
    if v.List? {
      forall i | 0 <= i < |v.items| ensures
        var half := Result(k, v.items[i], a, node, s);
        Result(k, v.items[i], a + b, node, s) == if half.Done? then Result(k, half.value, b, node, s) else half
      {
        ChainsCompose(k, v.items[i], a, b, node, s);
        ValueOnlyKeepsBroker(k, v.items[i], a, node, s);
      }
      if first.Done? {
        MapIsPointwise(k, first.value, b, node, s);
        var second := ApplyOps(k, first.value, [Map] + b, node, s).1;
        FusedAgree(k, v.items, first.value.items, a, b, node, s);
        if both.Done? {
          assert forall i :: 0 <= i < |v.items| ==> both.value.items[i] == second.value.items[i];
          assert both.value.items == second.value.items;
        }
      }
    }
  }

  lemma FusedAgree(k: Library, items: seq<Value>, half: seq<Value>, a: seq<Op>, b: seq<Op>, node: NodeId, s: State)
    requires MapFree(a) && ValueOnly(a) && |half| == |items|
    requires forall i :: 0 <= i < |items| ==> Result(k, items[i], a, node, s) == Done(half[i])
    ensures forall i :: 0 <= i < |items| ==> Result(k, items[i], a + b, node, s) == Result(k, half[i], b, node, s)
  {
    forall i | 0 <= i < |items| ensures Result(k, items[i], a + b, node, s) == Result(k, half[i], b, node, s) {
      ChainsCompose(k, items[i], a, b, node, s);
      ValueOnlyKeepsBroker(k, items[i], a, node, s);
    }
  }

  // -- handles agree with the host's record -----------------------------------------------------------

  /** The handle exists and claims the kind the host has on record. */
  predicate HandleAgrees(s: State, h: Handle) {
    h.id in s.handles && s.handles[h.id].kind == h.kind
  }

  /** Every handle anywhere in a value satisfies `ok`. */
  ghost predicate AllHandles(v: Value, ok: Handle -> bool)
    decreases v
  {
    match v
    case HandleValue(h) => ok(h)
    case List(items) => forall item :: item in items ==> AllHandles(item, ok)
    case _ => true
  }

  ghost predicate Agrees(s: State, v: Value) {
    AllHandles(v, (h: Handle) => HandleAgrees(s, h))
  }

  lemma {:induction false} AllHandlesWeaken(v: Value, p: Handle -> bool, q: Handle -> bool)
    requires AllHandles(v, p) && forall h :: p(h) ==> q(h)
    ensures AllHandles(v, q)
    decreases v
  {
    if v.List? {
      forall item | item in v.items ensures AllHandles(item, q) {
        AllHandlesWeaken(item, p, q);
      }
    }
  }

  predicate Narrows(ops: seq<Op>) {
    exists op :: op in ops && op.DecodeImage?
  }

  predicate Relabels(ops: seq<Op>) {
    exists op :: op in ops && op.WriteTemp?
  }

  /** What a conversion may do to the host's records: issue new handles, and turn records of the
      handles it was given into images, and those only if the chain narrows. */
  ghost predicate RecordsEvolve(s: State, t: State, given: set<nat>, narrows: bool) {
    && s.nextHandle <= t.nextHandle && NumbersBelowNext(t)
    && (forall id :: id in s.handles ==>
          && id in t.handles
          && (t.handles[id].kind == s.handles[id].kind || (narrows && id in given && t.handles[id].kind == OfImage)))
  }

  /** A handle in the value a conversion starts from. While one list is narrowed element by element
      its record may already be ahead of the claim, but then the chain is about to catch up. */
  ghost predicate Incoming(s: State, given: set<nat>, narrows: bool, image: bool, h: Handle) {
    && h.id in given && h.id in s.handles
    && (narrows || HandleAgrees(s, h)) && (image ==> h.kind == OfImage)
  }

  /** A handle in the result. Nothing later in the same conversion can make it wrong: it was issued
      since, or it was given and is recorded as an image whenever the chain turns records into that. */
  ghost predicate Lasting(s: State, t: State, given: set<nat>, image: bool, h: Handle) {
    HandleAgrees(t, h) && (s.nextHandle <= h.id || (h.id in given && (image ==> h.kind == OfImage)))
  }

  ghost predicate AllIncoming(s: State, given: set<nat>, narrows: bool, image: bool, v: Value) {
    AllHandles(v, h => Incoming(s, given, narrows, image, h))
  }

  ghost predicate AllLasting(s: State, t: State, given: set<nat>, image: bool, v: Value) {
    AllHandles(v, h => Lasting(s, t, given, image, h))
  }

  lemma CreateIssuesOne(m: Machine, s: State, node: NodeId, name: string, fault: bool)
    requires NumbersBelowNext(s)
    ensures var (t, o) := CreateOutput(m, s, node, OfBytes, name, fault);
            && RecordsEvolve(s, t, {}, false) && !o.Denied?
            && (o.Done? ==> o.value == Handle(s.nextHandle, OfBytes) && HandleAgrees(t, o.value))
  {
    BrokerHandles.CreateGrows(m, s, node, OfBytes, name, fault);
  }

  lemma FillKeepsRecords(k: Library, out: Handle, bytes: Bytes, node: NodeId, s: State)
    ensures var (t, o) := FillScratch(k, out, bytes, node, s);
            && t.handles == s.handles && t.nextHandle == s.nextHandle
            && (o.Done? ==> o.value == HandleValue(out))
  {
  }

  /** Storing is creating a scratch file and, if that worked, filling it. */
  lemma StoreFills(k: Library, bytes: Bytes, node: NodeId, s: State) returns (name: string, fails: bool)
    ensures var (t, created) := CreateOutput(k.machine, s, node, OfBytes, name, fails);
            StoreInScratch(k, bytes, node, s) ==
              match created
              case Done(out) => FillScratch(k, out, bytes, node, t)
              case Failed(code) => (t, Failed(code))
              case Denied(because) => (t, Denied(because))
  {
    name, fails := "content.bin", k.createFails(s.nextHandle);
  }

  lemma FillIssuesOne(k: Library, s: State, t: State, out: Handle, bytes: Bytes, node: NodeId)
    requires RecordsEvolve(s, t, {}, false) && HandleAgrees(t, out)
    ensures var (u, o) := FillScratch(k, out, bytes, node, t);
            RecordsEvolve(s, u, {}, false) && (o.Done? ==> o.value == HandleValue(out) && HandleAgrees(u, out))
  {
    FillKeepsRecords(k, out, bytes, node, t);
  }

  lemma StoreIssuesOne(k: Library, bytes: Bytes, node: NodeId, s: State)
    requires NumbersBelowNext(s)
    ensures var (t, o) := StoreInScratch(k, bytes, node, s);
            && RecordsEvolve(s, t, {}, false)
            && (o.Done? ==> o.value == HandleValue(Handle(s.nextHandle, OfBytes)) && HandleAgrees(t, o.value.h))
  {
    var name, fails := StoreFills(k, bytes, node, s);
    var (t, created) := CreateOutput(k.machine, s, node, OfBytes, name, fails);
    CreateIssuesOne(k.machine, s, node, name, fails);
    if created.Done? {
      FillIssuesOne(k, s, t, created.value, bytes, node);
    }
  }

  /** An operation on values alone passes its value on, or makes one that holds no handle. */
  lemma PureStepsMakeNoHandles(k: Library, v: Value, op: Op)
    requires IsPureOp(op) && !op.WriteTemp? && ApplyPure(k, v, op).Done?
    ensures var r := ApplyPure(k, v, op).value; r == v || (!r.HandleValue? && !r.List?)
  {
  }

  /** One operation, and what the rest of the chain then starts from: the same handles, or the one
      just issued. */
  lemma OneStepAgrees(k: Library, v: Value, op: Op, rest: seq<Op>, node: NodeId, s: State, given: set<nat>, image: bool)
      returns (given': set<nat>)
    requires !op.Map? && !op.WriteTemp? && NumbersBelowNext(s) && given <= s.handles.Keys
    requires AllIncoming(s, given, op.DecodeImage? || Narrows(rest), image, v)
    requires ApplyOne(k, v, op, node, s).1.Done?
    ensures var (t, o) := ApplyOne(k, v, op, node, s);
            && RecordsEvolve(s, t, given, op.DecodeImage?) && given' <= t.handles.Keys
            && (given' == given || given' == {s.nextHandle})
            && AllIncoming(t, given', Narrows(rest), given' == given && (image || op.DecodeImage?), o.value)
  {
    given' := given;
    if op.ReadBytes? && v.HandleValue? {
      StoreIssuesOne(k, HostRead(s, v.h).value, node, s);
      given' := {s.nextHandle};
    } else if op.DecodeImage? && v.HandleValue? {
      NarrowAgrees(k, v.h, s);
    } else if IsPureOp(op) {
      PureStepsMakeNoHandles(k, v, op);
    }
  }

  lemma FailedStepEvolves(k: Library, v: Value, op: Op, node: NodeId, s: State)
    requires !op.Map? && NumbersBelowNext(s) && !ApplyOne(k, v, op, node, s).1.Done?
    ensures RecordsEvolve(s, ApplyOne(k, v, op, node, s).0, {}, false)
  {
    if op.ReadBytes? && v.HandleValue? && HostRead(s, v.h).Done? {
      StoreIssuesOne(k, HostRead(s, v.h).value, node, s);
    }
  }

  lemma RecordsCompose(s: State, t: State, u: State, given: set<nat>, given': set<nat>, first: bool, second: bool)
    requires NumbersBelowNext(s) && given <= s.handles.Keys
    requires RecordsEvolve(s, t, given, first) && RecordsEvolve(t, u, given', second)
    requires given' <= given || given' == {s.nextHandle}
    ensures RecordsEvolve(s, u, given, first || second)
  {
  }

  /** A successful chain without `write-temp` leaves every handle of its result agreeing with the
      host's record, and changes no record it was not given. */
  lemma {:induction false} ChainAgrees(k: Library, v: Value, ops: seq<Op>, node: NodeId, s: State, given: set<nat>,
                                       image: bool)
    requires !Relabels(ops) && NumbersBelowNext(s) && given <= s.handles.Keys
    requires AllIncoming(s, given, Narrows(ops), image, v)
    ensures var (t, o) := ApplyOps(k, v, ops, node, s);
            && RecordsEvolve(s, t, given, Narrows(ops))
            && (o.Done? ==> AllLasting(s, t, given, image || Narrows(ops), o.value))
    decreases |ops|, 0
  {
    if ops == [] {
      AllHandlesWeaken(v, h => Incoming(s, given, false, image, h), h => Lasting(s, s, given, image, h));
    } else {
      var op, rest := ops[0], ops[1..];
      TailOps(ops);
      if op.Map? {
        if v.List? {
          EachAgrees(k, v.items, rest, node, s, given, image);
        }
      } else {
        var (t, o) := ApplyOne(k, v, op, node, s);
        if o.Done? {
          var given' := OneStepAgrees(k, v, op, rest, node, s, given, image);
          var image' := given' == given && (image || op.DecodeImage?);
          ChainAgrees(k, o.value, rest, node, t, given', image');
          var (u, r) := ApplyOps(k, o.value, rest, node, t);
          RestAgrees(s, t, u, given, given', op, rest, image, r);
        } else {
          FailedStepEvolves(k, v, op, node, s);
        }
      }
    }
  }

  /** What the rest of a chain promises of the state it started from, told of the state before its first step. */
  lemma RestAgrees(s: State, t: State, u: State, given: set<nat>, given': set<nat>, op: Op, rest: seq<Op>, image: bool,
                   r: Outcome<Value>)
    requires RecordsEvolve(s, t, given, op.DecodeImage?) && RecordsEvolve(t, u, given', Narrows(rest))
    requires given <= s.handles.Keys && NumbersBelowNext(s) && (given' == given || given' == {s.nextHandle})
    requires var image' := given' == given && (image || op.DecodeImage?);
             r.Done? ==> AllLasting(t, u, given', image' || Narrows(rest), r.value)
    ensures RecordsEvolve(s, u, given, op.DecodeImage? || Narrows(rest))
    ensures r.Done? ==> AllLasting(s, u, given, image || op.DecodeImage? || Narrows(rest), r.value)
  {
    RecordsCompose(s, t, u, given, given', op.DecodeImage?, Narrows(rest));
    if r.Done? {
      var image' := given' == given && (image || op.DecodeImage?);
      AllHandlesWeaken(r.value, h => Lasting(t, u, given', image' || Narrows(rest), h),
                       h => Lasting(s, u, given, image || op.DecodeImage? || Narrows(rest), h));
    }
  }

  lemma TailOps(ops: seq<Op>)
    requires ops != []
    ensures Narrows(ops) <==> ops[0].DecodeImage? || Narrows(ops[1..])
    ensures Relabels(ops) <==> ops[0].WriteTemp? || Relabels(ops[1..])
  {
    assert ops[0] in ops && forall op :: op in ops <==> op == ops[0] || op in ops[1..];
  }

  /** Element by element: what was made of the earlier elements survives the later ones, even when
      one handle occurs in several of them. */
  lemma {:induction false} EachAgrees(k: Library, items: seq<Value>, ops: seq<Op>, node: NodeId, s: State,
                                      given: set<nat>, image: bool)
    requires !Relabels(ops) && NumbersBelowNext(s) && given <= s.handles.Keys
    requires forall item :: item in items ==> AllIncoming(s, given, Narrows(ops), image, item)
    ensures var (t, o) := ApplyToEach(k, items, ops, node, s);
            && RecordsEvolve(s, t, given, Narrows(ops))
            && (o.Done? ==> forall r :: r in o.value ==> AllLasting(s, t, given, image || Narrows(ops), r))
    decreases |ops|, 1 + |items|
  {
    if items != [] {
      EachAgrees(k, Front(items), ops, node, s, given, image);
      var (t, front) := ApplyToEach(k, Front(items), ops, node, s);
      if front.Done? {
        var item, flag := Last(items), image || Narrows(ops);
        assert item in items;
        AllHandlesWeaken(item, h => Incoming(s, given, Narrows(ops), image, h),
                         h => Incoming(t, given, Narrows(ops), image, h));
        ChainAgrees(k, item, ops, node, t, given, image);
        var (u, last) := ApplyOps(k, item, ops, node, t);
        RecordsCompose(s, t, u, given, given, Narrows(ops), Narrows(ops));
        if last.Done? {
          AllHandlesWeaken(last.value, h => Lasting(t, u, given, flag, h), h => Lasting(s, u, given, flag, h));
          forall r | r in front.value ensures AllLasting(s, u, given, flag, r) {
            AllHandlesWeaken(r, h => Lasting(s, t, given, flag, h), h => Lasting(s, u, given, flag, h));
          }
        }
      }
    }
  }

  /** The promise as a component meets it: hand a chain a value whose handles exist under the kinds
      the host recorded, and what comes back can be opened under the kinds it claims. */
  lemma ConversionKeepsKindsHonest(k: Library, v: Value, ops: seq<Op>, node: NodeId, s: State)
    requires !Relabels(ops) && NumbersBelowNext(s) && Agrees(s, v)
    ensures var (t, o) := ApplyOps(k, v, ops, node, s);
            o.Done? ==> Agrees(t, o.value)
  {
    var given := s.handles.Keys;
    AllHandlesWeaken(v, h => HandleAgrees(s, h), h => Incoming(s, given, Narrows(ops), false, h));
    ChainAgrees(k, v, ops, node, s, given, false);
    var (t, o) := ApplyOps(k, v, ops, node, s);
    if o.Done? {
      AllHandlesWeaken(o.value, h => Lasting(s, t, given, Narrows(ops), h), h => HandleAgrees(t, h));
    }
  }

  /** `write-temp` is why the chain must not contain it: alone, it keeps the promise exactly for a
      handle that is a file already. */
  lemma WriteTempBreaksIt(k: Library, h: Handle, node: NodeId, s: State)
    requires HandleAgrees(s, h)
    ensures var (t, o) := ApplyOps(k, HandleValue(h), [WriteTemp], node, s);
            o.Done? && (Agrees(t, o.value) <==> h.kind == OfFile)
  {
    assert [WriteTemp][1..] == [];
  }

  lemma NarrowAgrees(k: Library, h: Handle, s: State)
    requires NumbersBelowNext(s) && h.id in s.handles && NarrowToImage(k, h, s).1.Done?
    ensures var (t, o) := NarrowToImage(k, h, s);
            && RecordsEvolve(s, t, {h.id}, true) && o.value == HandleValue(Handle(h.id, OfImage))
            && HandleAgrees(t, o.value.h)
  {
  }
}
