/** What `write-temp` does to the promise that a converted handle claims the host's recorded kind, in any
    chain and any value: a chain with it ends where the same chain without it ends, and only the claims
    differ. */
module ConvertClaims {
  import opened Common
  import opened BrokerState
  import opened Convert
  import opened ConvertLaws

  /** The chain without its `write-temp` operations. */
  function Strip(ops: seq<Op>): seq<Op> {
    if ops == [] then []
    else (if ops[0].WriteTemp? then [] else [ops[0]]) + Strip(ops[1..])
  }

  /** Every handle under the claim of a plain file. */
  function Bare(v: Value): Value
    decreases v
  {
    match v
    case HandleValue(h) => HandleValue(Handle(h.id, OfFile))
    case List(items) => List(seq(|items|, i requires 0 <= i < |items| => Bare(items[i])))
    case _ => v
  }

  lemma BareItems(v: seq<Value>, w: seq<Value>)
    ensures Bare(List(v)) == Bare(List(w)) <==>
              |v| == |w| && forall i :: 0 <= i < |v| ==> Bare(v[i]) == Bare(w[i])
  {
    var a, b := Bare(List(v)).items, Bare(List(w)).items;
    assert |a| == |v| && |b| == |w|;
    assert forall i :: 0 <= i < |v| ==> a[i] == Bare(v[i]);
    assert forall i :: 0 <= i < |w| ==> b[i] == Bare(w[i]);
  }

  predicate HoldsHandle(v: Value)
    decreases v
  {
    match v
    case HandleValue(_) => true
    case List(items) => exists i :: 0 <= i < |items| && HoldsHandle(items[i])
    case _ => false
  }

  predicate AllClaim(v: Value, kind: HandleKind)
    decreases v
  {
    match v
    case HandleValue(h) => h.kind == kind
    case List(items) => forall i :: 0 <= i < |items| ==> AllClaim(items[i], kind)
    case _ => true
  }

  // -- the claims at the end of a chain ---------------------------------------------------------------

  /** What the operation makes every handle it lets through claim to be, if it says anything. */
  function ClaimOf(op: Op): Option<HandleKind> {
    match op
    case ReadBytes => Some(OfBytes)
    case DecodeImage => Some(OfImage)
    case WriteTemp => Some(OfFile)
    case _ => None
  }

  /** The claim of the last operation that makes one. */
  function LastClaim(ops: seq<Op>): Option<HandleKind> {
    if ops == [] then None
    else if LastClaim(ops[1..]).Some? then LastClaim(ops[1..])
    else ClaimOf(ops[0])
  }

  /** The chain reads content or believes it. */
  predicate Touches(ops: seq<Op>) {
    exists op :: op in ops && (op.ReadBytes? || op.DecodeImage?)
  }

  lemma TailTouches(ops: seq<Op>)
    requires ops != []
    ensures Touches(ops) <==> ops[0].ReadBytes? || ops[0].DecodeImage? || Touches(ops[1..])
  {
    assert ops[0] in ops && forall op :: op in ops <==> op == ops[0] || op in ops[1..];
  }

  /** One operation on a handle that succeeds answers a handle, under the operation's claim or the old one;
      on anything else it answers no handle, unless it passes a list on as it is. */
  lemma StepClaims(k: Library, v: Value, op: Op, node: NodeId, s: State)
    requires !op.Map? && ApplyOne(k, v, op, node, s).1.Done?
    ensures var r := ApplyOne(k, v, op, node, s).1.value;
            && (v.HandleValue? ==>
                  r.HandleValue? && r.h.kind == (if ClaimOf(op).Some? then ClaimOf(op).value else v.h.kind))
            && (v.List? ==> r == v && ClaimOf(op).None?)
            && (!v.HandleValue? && !v.List? ==> !r.HandleValue? && !r.List?)
  {
    if op.ReadBytes? && v.HandleValue? {
      FilledClaims(k, HostRead(s, v.h).value, node, s);
    }
  }

  lemma FilledClaims(k: Library, bytes: Bytes, node: NodeId, s: State)
    requires StoreInScratch(k, bytes, node, s).1.Done?
    ensures var r := StoreInScratch(k, bytes, node, s).1.value; r.HandleValue? && r.h.kind == OfBytes
  {
    var name, fails := StoreFills(k, bytes, node, s);
    var (t, created) := CreateOutput(k.machine, s, node, OfBytes, name, fails);
    CreatedClaims(k.machine, s, node, name, fails);
    if created.Done? {
      FillKeepsRecords(k, created.value, bytes, node, t);
    }
  }

  lemma CreatedClaims(m: Machine, s: State, node: NodeId, name: string, fault: bool)
    ensures var o := CreateOutput(m, s, node, OfBytes, name, fault).1; o.Done? ==> o.value.kind == OfBytes
  {
  }

  /** What a successful chain leaves: the handles there were, one for one, under its last claim, or, when
      it makes none, as they were. */
  ghost predicate Claimed(v: Value, ops: seq<Op>, r: Value) {
    && (HoldsHandle(r) <==> HoldsHandle(v))
    && (LastClaim(ops).Some? ==> AllClaim(r, LastClaim(ops).value))
    && (LastClaim(ops).None? ==> forall kind :: AllClaim(r, kind) <==> AllClaim(v, kind))
  }

  lemma {:induction false} ChainClaims(k: Library, v: Value, ops: seq<Op>, node: NodeId, s: State)
    requires ApplyOps(k, v, ops, node, s).1.Done?
    ensures Claimed(v, ops, ApplyOps(k, v, ops, node, s).1.value)
    decreases |ops|, 0
  {
    if ops != [] {
      if ops[0].Map? {
        EachClaims(k, v.items, ops[1..], node, s);
        ListClaims(v.items, ops, ApplyToEach(k, v.items, ops[1..], node, s).1.value);
      } else {
        var (t, o) := ApplyOne(k, v, ops[0], node, s);
        StepClaims(k, v, ops[0], node, s);
        ChainClaims(k, o.value, ops[1..], node, t);
        StepThenRest(v, ops, o.value, ApplyOps(k, o.value, ops[1..], node, t).1.value);
      }
    }
  }

  lemma SameHandleClaims(v: Value, w: Value)
    requires v.HandleValue? ==> w.HandleValue? && w.h.kind == v.h.kind
    requires v.List? ==> w == v
    requires !v.HandleValue? && !v.List? ==> !w.HandleValue? && !w.List?
    ensures forall kind :: AllClaim(w, kind) <==> AllClaim(v, kind)
  {
  }

  lemma StepThenRest(v: Value, ops: seq<Op>, w: Value, r: Value)
    requires ops != [] && Claimed(w, ops[1..], r)
    requires v.HandleValue? ==>
               w.HandleValue? && w.h.kind == (if ClaimOf(ops[0]).Some? then ClaimOf(ops[0]).value else v.h.kind)
    requires v.List? ==> w == v && ClaimOf(ops[0]).None?
    requires !v.HandleValue? && !v.List? ==> !w.HandleValue? && !w.List?
    ensures Claimed(v, ops, r)
  {
    if LastClaim(ops[1..]).None? {
      if ClaimOf(ops[0]).Some? {
        assert AllClaim(r, ClaimOf(ops[0]).value) <==> AllClaim(w, ClaimOf(ops[0]).value);
      } else {
        SameHandleClaims(v, w);
      }
    }
  }

  lemma ListClaims(items: seq<Value>, ops: seq<Op>, results: seq<Value>)
    requires ops != [] && ops[0].Map? && |results| == |items|
    requires forall i :: 0 <= i < |items| ==> Claimed(items[i], ops[1..], results[i])
    ensures Claimed(List(items), ops, List(results))
  {
    assert LastClaim(ops) == LastClaim(ops[1..]);
    if HoldsHandle(List(items)) {
      var i :| 0 <= i < |items| && HoldsHandle(items[i]);
      assert HoldsHandle(results[i]);
    }
    if HoldsHandle(List(results)) {
      var i :| 0 <= i < |results| && HoldsHandle(results[i]);
      assert HoldsHandle(items[i]);
    }
  }

  lemma {:induction false} EachClaims(k: Library, items: seq<Value>, ops: seq<Op>, node: NodeId, s: State)
    requires ApplyToEach(k, items, ops, node, s).1.Done?
    ensures var r := ApplyToEach(k, items, ops, node, s).1.value;
            |r| == |items| && forall i :: 0 <= i < |items| ==> Claimed(items[i], ops, r[i])
    decreases |ops|, 1 + |items|
  {
    if items != [] {
      EachClaims(k, Front(items), ops, node, s);
      ChainClaims(k, Last(items), ops, node, ApplyToEach(k, Front(items), ops, node, s).0);
    }
  }

  // -- the same chain without write-temp ------------------------------------------------------------------

  lemma {:induction false} StripDropsRelabels(ops: seq<Op>)
    ensures !Relabels(Strip(ops))
    ensures Touches(Strip(ops)) <==> Touches(ops)
  {
    if ops != [] {
      StripDropsRelabels(ops[1..]);
      TailTouches(ops);
      var kept := Strip(ops);
      if !ops[0].WriteTemp? {
        assert kept[0] == ops[0] && kept[1..] == Strip(ops[1..]);
        TailTouches(kept);
        TailOps(kept);
      } else {
        assert kept == Strip(ops[1..]);
      }
    }
  }

  /** No operation looks at the kind a handle claims. */
  lemma StepIgnoresClaims(k: Library, v: Value, w: Value, op: Op, node: NodeId, s: State)
    requires !op.Map? && Bare(v) == Bare(w) && ApplyOne(k, v, op, node, s).1.Done?
    ensures var (t, o) := ApplyOne(k, v, op, node, s);
            var (t', o') := ApplyOne(k, w, op, node, s);
            t' == t && o'.Done? && Bare(o'.value) == Bare(o.value)
  {
    if !v.HandleValue? && !v.List? {
      assert v == w;
    }
  }

  lemma RelabelIsBare(k: Library, v: Value, op: Op, node: NodeId, s: State)
    requires op.WriteTemp? && ApplyOne(k, v, op, node, s).1.Done?
    ensures var (t, o) := ApplyOne(k, v, op, node, s); t == s && Bare(o.value) == Bare(v)
  {
  }

  /** With or without `write-temp`, and whatever the handles claimed at first: the same broker in the end,
      and the same value but for its claims. */
  lemma {:induction false} StrippedAlike(k: Library, v: Value, w: Value, ops: seq<Op>, node: NodeId, s: State)
    requires Bare(v) == Bare(w) && ApplyOps(k, v, ops, node, s).1.Done?
    ensures var (t, o) := ApplyOps(k, v, ops, node, s);
            var (t', o') := ApplyOps(k, w, Strip(ops), node, s);
            t' == t && o'.Done? && Bare(o'.value) == Bare(o.value)
    decreases |ops|, 0
  {
    if ops != [] {
      var op, rest := ops[0], ops[1..];
      if op.WriteTemp? {
        assert Strip(ops) == Strip(rest);
        RelabelIsBare(k, v, op, node, s);
        StrippedAlike(k, ApplyOne(k, v, op, node, s).1.value, w, rest, node, s);
      } else {
        assert Strip(ops)[0] == op && Strip(ops)[1..] == Strip(rest);
        if op.Map? {
          assert w.List?;
          BareItems(v.items, w.items);
          EachStrippedAlike(k, v.items, w.items, rest, node, s);
          BareItems(ApplyToEach(k, v.items, rest, node, s).1.value,
                    ApplyToEach(k, w.items, Strip(rest), node, s).1.value);
        } else {
          var (t, o) := ApplyOne(k, v, op, node, s);
          StepIgnoresClaims(k, v, w, op, node, s);
          StrippedAlike(k, o.value, ApplyOne(k, w, op, node, s).1.value, rest, node, t);
        }
      }
    }
  }

  lemma {:induction false} EachStrippedAlike(k: Library, v: seq<Value>, w: seq<Value>, ops: seq<Op>, node: NodeId,
                                             s: State)
    requires |v| == |w| && (forall i :: 0 <= i < |v| ==> Bare(v[i]) == Bare(w[i]))
    requires ApplyToEach(k, v, ops, node, s).1.Done?
    ensures var (t, o) := ApplyToEach(k, v, ops, node, s);
            var (t', o') := ApplyToEach(k, w, Strip(ops), node, s);
            && t' == t && o'.Done? && |o'.value| == |o.value|
            && (forall i :: 0 <= i < |o.value| ==> Bare(o'.value[i]) == Bare(o.value[i]))
    decreases |ops|, 1 + |v|
  {
    if v != [] {
      EachStrippedAlike(k, Front(v), Front(w), ops, node, s);
      var t := ApplyToEach(k, Front(v), ops, node, s).0;
      StrippedAlike(k, Last(v), Last(w), ops, node, t);
    }
  }

  // -- exactly when the promise is kept ---------------------------------------------------------------------

  /** Two values that differ in their claims only, one of them right: the other is right exactly when it is
      the same. */
  lemma {:induction false} RightIsSame(s: State, r: Value, w: Value)
    requires Bare(r) == Bare(w) && Agrees(s, w)
    ensures Agrees(s, r) <==> r == w
    decreases r
  {
    if r.List? {
      assert w.List?;
      BareItems(r.items, w.items);
      forall i | 0 <= i < |r.items| ensures Agrees(s, r.items[i]) <==> r.items[i] == w.items[i] {
        assert w.items[i] in w.items;
        RightIsSame(s, r.items[i], w.items[i]);
      }
      ListAgrees(s, r.items);
      assert r == w <==> forall i :: 0 <= i < |r.items| ==> r.items[i] == w.items[i];
    }
  }

  lemma ListAgrees(s: State, items: seq<Value>)
    ensures Agrees(s, List(items)) <==> forall i :: 0 <= i < |items| ==> Agrees(s, items[i])
  {
    assert forall i :: 0 <= i < |items| ==> items[i] in items;
  }

  /** Where all handles claim one kind, the claims are the same when the kind is, or when there are none. */
  lemma {:induction false} SameClaims(r: Value, w: Value, claim: HandleKind, kind: HandleKind)
    requires Bare(r) == Bare(w) && AllClaim(r, claim) && AllClaim(w, kind)
    ensures r == w <==> claim == kind || !HoldsHandle(r)
    decreases r
  {
    if r.List? {
      assert w.List?;
      BareItems(r.items, w.items);
      forall i | 0 <= i < |r.items| ensures r.items[i] == w.items[i] <==> claim == kind || !HoldsHandle(r.items[i]) {
        SameClaims(r.items[i], w.items[i], claim, kind);
      }
      assert r == w <==> forall i :: 0 <= i < |r.items| ==> r.items[i] == w.items[i];
    }
  }

  /** The condition a caller can check before the call. */
  predicate KeepsClaims(v: Value, ops: seq<Op>) {
    !HoldsHandle(v) || LastClaim(ops) != Some(OfFile) || (!Touches(ops) && AllClaim(v, OfFile))
  }

  /** The recorded kind, where the chain decides it: a chain that ends by reading or believing content
      has it recorded. */
  lemma {:induction false} TouchingClaims(ops: seq<Op>)
    requires Touches(ops) && !Relabels(ops)
    ensures LastClaim(ops) == Some(OfBytes) || LastClaim(ops) == Some(OfImage)
  {
    TailTouches(ops);
    TailOps(ops);
    if Touches(ops[1..]) {
      TouchingClaims(ops[1..]);
    } else {
      NoTouchNoClaim(ops[1..]);
    }
  }

  lemma {:induction false} NoTouchNoClaim(ops: seq<Op>)
    requires !Touches(ops) && !Relabels(ops)
    ensures LastClaim(ops).None?
  {
    if ops != [] {
      TailTouches(ops);
      TailOps(ops);
      NoTouchNoClaim(ops[1..]);
    }
  }

  lemma {:induction false} NothingToStrip(ops: seq<Op>)
    requires LastClaim(ops).None?
    ensures Strip(ops) == ops
  {
    if ops != [] {
      NothingToStrip(ops[1..]);
    }
  }

  lemma {:induction false} LastClaimStays(ops: seq<Op>)
    requires LastClaim(ops) == Some(OfBytes) || LastClaim(ops) == Some(OfImage)
    ensures LastClaim(Strip(ops)) == LastClaim(ops)
  {
    var kept, rest := Strip(ops), Strip(ops[1..]);
    if LastClaim(ops[1..]).Some? {
      LastClaimStays(ops[1..]);
    } else {
      NothingToStrip(ops[1..]);
    }
    if !ops[0].WriteTemp? {
      assert kept[0] == ops[0] && kept[1..] == rest;
    } else {
      assert kept == rest;
    }
  }

  /** For every chain and every value whose handles agree with the host: what a successful conversion
      returns agrees too, if and only if the value holds no handle, or the last operation to make a claim
      is not `write-temp`, or nothing in the chain touches content and every handle was a file already. */
  lemma ClaimsKeptExactly(k: Library, v: Value, ops: seq<Op>, node: NodeId, s: State)
    requires NumbersBelowNext(s) && Agrees(s, v) && ApplyOps(k, v, ops, node, s).1.Done?
    ensures var (t, o) := ApplyOps(k, v, ops, node, s);
            Agrees(t, o.value) <==> KeepsClaims(v, ops)
  {
    var (t, o) := ApplyOps(k, v, ops, node, s);
    var (t', o') := ApplyOps(k, v, Strip(ops), node, s);
    StrippedAlike(k, v, v, ops, node, s);
    StripDropsRelabels(ops);
    ConversionKeepsKindsHonest(k, v, Strip(ops), node, s);
    RightIsSame(t, o.value, o'.value);
    if LastClaim(ops).None? {
      NothingToStrip(ops);
    } else {
      ChainClaims(k, v, ops, node, s);
      ChainClaims(k, v, Strip(ops), node, s);
      ClaimsDecide(v, ops, o.value, o'.value);
    }
  }

  lemma ClaimsDecide(v: Value, ops: seq<Op>, r: Value, w: Value)
    requires Bare(r) == Bare(w) && Claimed(v, ops, r) && Claimed(v, Strip(ops), w) && LastClaim(ops).Some?
    ensures r == w <==> KeepsClaims(v, ops)
  {
    var claim := LastClaim(ops).value;
    StripDropsRelabels(ops);
    OnlyThreeClaims(ops);
    if claim != OfFile {
      LastClaimStays(ops);
      SameClaims(r, w, claim, claim);
    } else if Touches(ops) {
      TouchingClaims(Strip(ops));
      SameClaims(r, w, claim, LastClaim(Strip(ops)).value);
    } else {
      NoTouchNoClaim(Strip(ops));
      assert AllClaim(w, OfFile) <==> AllClaim(v, OfFile);
      if AllClaim(w, OfFile) {
        SameClaims(r, w, OfFile, OfFile);
      } else if !HoldsHandle(v) {
        NoHandleAnyClaim(w, OfFile);
      }
    }
  }

  lemma {:induction false} OnlyThreeClaims(ops: seq<Op>)
    ensures LastClaim(ops) in {None, Some(OfBytes), Some(OfImage), Some(OfFile)}
  {
    if ops != [] {
      OnlyThreeClaims(ops[1..]);
    }
  }

  lemma {:induction false} NoHandleAnyClaim(v: Value, kind: HandleKind)
    requires !HoldsHandle(v)
    ensures AllClaim(v, kind)
    decreases v
  {
    if v.List? {
      forall i | 0 <= i < |v.items| ensures AllClaim(v.items[i], kind) {
        NoHandleAnyClaim(v.items[i], kind);
      }
    }
  }

  /** So the order decides. Reading a handle's content, or believing it, and then writing it as a temporary file
      makes a claim the host does not share, on every handle; the other way round the claim is right. Both succeed
      whenever the first of the two does alone, so neither is an empty promise. */
  lemma OrderDecides(k: Library, h: Handle, first: Op, node: NodeId, s: State)
    requires NumbersBelowNext(s) && HandleAgrees(s, h) && (first.ReadBytes? || first.DecodeImage?)
    ensures var (t, o) := ApplyOps(k, HandleValue(h), [first, WriteTemp], node, s); o.Done? ==> !Agrees(t, o.value)
    ensures var (t, o) := ApplyOps(k, HandleValue(h), [WriteTemp, first], node, s); o.Done? ==> Agrees(t, o.value)
    ensures var alone := ApplyOps(k, HandleValue(h), [first], node, s).1;
            && (ApplyOps(k, HandleValue(h), [first, WriteTemp], node, s).1.Done? <==> alone.Done?)
            && (ApplyOps(k, HandleValue(h), [WriteTemp, first], node, s).1.Done? <==> alone.Done?)
  {
    OrderOfClaims(h, first);
    BothSucceedAlike(k, h, first, node, s);
    if ApplyOps(k, HandleValue(h), [first], node, s).1.Done? {
      ClaimsKeptExactly(k, HandleValue(h), [first, WriteTemp], node, s);
      ClaimsKeptExactly(k, HandleValue(h), [WriteTemp, first], node, s);
    }
  }

  lemma OneOp(k: Library, v: Value, a: Op, node: NodeId, s: State)
    requires !a.Map?
    ensures ApplyOps(k, v, [a], node, s).1.Done? <==> ApplyOne(k, v, a, node, s).1.Done?
  {
    assert [a][1..] == [];
  }

  lemma TwoOps(k: Library, v: Value, a: Op, b: Op, node: NodeId, s: State)
    requires !a.Map? && !b.Map?
    ensures var (t, o) := ApplyOne(k, v, a, node, s);
            ApplyOps(k, v, [a, b], node, s).1.Done? <==> o.Done? && ApplyOne(k, o.value, b, node, t).1.Done?
  {
    var (t, o) := ApplyOne(k, v, a, node, s);
    assert [a, b][1..] == [b];
    if o.Done? {
      OneOp(k, o.value, b, node, t);
    }
  }

  lemma RelabelSucceeds(k: Library, h: Handle, node: NodeId, s: State)
    ensures ApplyOne(k, HandleValue(h), WriteTemp, node, s) == (s, Done(HandleValue(Handle(h.id, OfFile))))
  {
  }

  lemma SucceedsUnderAnyClaim(k: Library, v: Value, w: Value, op: Op, node: NodeId, s: State)
    requires !op.Map? && Bare(v) == Bare(w)
    ensures ApplyOne(k, v, op, node, s).1.Done? <==> ApplyOne(k, w, op, node, s).1.Done?
  {
    if ApplyOne(k, v, op, node, s).1.Done? {
      StepIgnoresClaims(k, v, w, op, node, s);
    }
    if ApplyOne(k, w, op, node, s).1.Done? {
      StepIgnoresClaims(k, w, v, op, node, s);
    }
  }

  lemma BothSucceedAlike(k: Library, h: Handle, first: Op, node: NodeId, s: State)
    requires first.ReadBytes? || first.DecodeImage?
    ensures var alone := ApplyOps(k, HandleValue(h), [first], node, s).1;
            && (ApplyOps(k, HandleValue(h), [first, WriteTemp], node, s).1.Done? <==> alone.Done?)
            && (ApplyOps(k, HandleValue(h), [WriteTemp, first], node, s).1.Done? <==> alone.Done?)
  {
    OneOp(k, HandleValue(h), first, node, s);
    RelabelFirst(k, h, first, node, s);
    RelabelLast(k, h, first, node, s);
  }

  lemma RelabelFirst(k: Library, h: Handle, op: Op, node: NodeId, s: State)
    requires !op.Map?
    ensures ApplyOps(k, HandleValue(h), [WriteTemp, op], node, s).1.Done?
        <==> ApplyOne(k, HandleValue(h), op, node, s).1.Done?
  {
    TwoOps(k, HandleValue(h), WriteTemp, op, node, s);
    RelabelSucceeds(k, h, node, s);
    SucceedsUnderAnyClaim(k, HandleValue(h), HandleValue(Handle(h.id, OfFile)), op, node, s);
  }

  lemma RelabelLast(k: Library, h: Handle, op: Op, node: NodeId, s: State)
    requires op.ReadBytes? || op.DecodeImage?
    ensures ApplyOps(k, HandleValue(h), [op, WriteTemp], node, s).1.Done?
        <==> ApplyOne(k, HandleValue(h), op, node, s).1.Done?
  {
    TwoOps(k, HandleValue(h), op, WriteTemp, node, s);
    var (t, o) := ApplyOne(k, HandleValue(h), op, node, s);
    if o.Done? {
      StepClaims(k, HandleValue(h), op, node, s);
      RelabelSucceeds(k, o.value.h, node, t);
    }
  }

  lemma OrderOfClaims(h: Handle, first: Op)
    requires first.ReadBytes? || first.DecodeImage?
    ensures !KeepsClaims(HandleValue(h), [first, WriteTemp]) && KeepsClaims(HandleValue(h), [WriteTemp, first])
  {
    assert [first, WriteTemp][1..] == [WriteTemp] && [WriteTemp, first][1..] == [first];
    assert [WriteTemp][1..] == [] && [first][1..] == [];
    assert first in [first, WriteTemp];
    assert LastClaim([first, WriteTemp]) == Some(OfFile) && LastClaim([first]) != Some(OfFile);
    assert LastClaim([WriteTemp, first]) == LastClaim([first]) && Touches([first, WriteTemp]);
  }
}
