/** Applying the conversions of an edge: a chain of operations folded over a value. */
module Convert {
  import opened Common
  import opened BrokerState
  import opened Text
  import Decimal
  import B = Broker

  const TWO_53: int := 0x20_0000_0000_0000
  const TWO_63: int := 0x8000_0000_0000_0000

  type Int64 = i: int | -TWO_63 <= i < TWO_63

  /** A double without its last bits: what matters here is whether it is finite, and which real it is. */
  datatype Double = NotANumber | Infinite(negative: bool) | Finite(r: real)

  datatype Json =
    | JsonNull
    | JsonBool(b: bool)
    | JsonInt(i: int)
    | JsonFloat(r: real)
    | JsonString(s: string)
    | JsonArray(items: seq<Json>)
    | JsonObject(fields: seq<(string, Json)>)

  datatype Value =
    | Bool(b: bool)
    | Int(i: Int64)
    | Float(f: Double)
    | Text(t: string)
    | JsonValue(j: Json)
    | HandleValue(h: Handle)
    | List(items: seq<Value>)
    | Absent

  datatype Op =
    | Map
    | UnwrapOption
    | ToText
    | IntToFloat
    | BoolToInt
    | IntToBool
    | Round
    | ParseInt
    | ParseFloat
    | ParseBool
    | ParseJson
    | StringifyJson
    | EncodeJson
    | DecodeJson
    | ReadBytes
    | DecodeImage
    | WriteTemp
    | Pending(name: string)
    | Unknown(name: string)

  /** What the libraries and the machine decide: how floats and JSON are written and read, what
      counts as white space and as an image, and which scratch files the system fails on. */
  datatype Library = Library(
    machine: Machine,
    showFloat: Double -> string,
    parseFloat: string -> Option<Double>,
    parseJson: string -> Option<Json>,
    showJson: Json -> Option<string>,
    nearestFloat: int -> real,
    whitespace: char -> bool,
    isImage: Bytes -> bool,
    createFails: nat -> bool,
    writeFails: nat -> bool)

  // -- numbers and text ----------------------------------------------------------------------

  function ShowInt(i: int): string {
    if i < 0 then ['-'] + Decimal.Show(-i) else Decimal.Show(i)
  }

  /** `str::parse::<i64>`: an optional sign and at least one digit, within the range. */
  function ParseInt64(s: string): Option<Int64> {
    var signed := s != [] && (s[0] == '-' || s[0] == '+');
    var digits := if signed then s[1..] else s;
    if digits == [] || !Decimal.AllDigits(digits) then None
    else
      var magnitude: int := Decimal.Value(digits);
      var i := if signed && s[0] == '-' then -magnitude else magnitude;
      if -TWO_63 <= i < TWO_63 then Some(i) else None
  }

  /** Half away from zero, as `f64::round` does. */
  function NearestInteger(r: real): int {
    if r >= 0.0 then (r + 0.5).Floor else -((-r + 0.5).Floor)
  }

  /** `as i64` clamps, and the check before it compares against 2^63, not 2^63 - 1. */
  function RoundToInt(r: real): Option<Int64> {
    var n := NearestInteger(r);
    if n > TWO_63 || n < -TWO_63 then None
    else Some(if n == TWO_63 then TWO_63 - 1 else n)
  }

  function JsonOfScalar(v: Value): Option<Json> {
    match v
    case Bool(b) => Some(JsonBool(b))
    case Int(i) => Some(JsonInt(i))
    case Float(f) => Some(if f.Finite? then JsonFloat(f.r) else JsonNull)
    case Text(t) => Some(JsonString(t))
    case _ => None
  }

  function ScalarOfJson(k: Library, j: Json): Option<Value> {
    match j
    case JsonBool(b) => Some(Bool(b))
    case JsonString(s) => Some(Text(s))
    case JsonInt(i) => Some(if -TWO_63 <= i < TWO_63 then Int(i) else Float(Finite(k.nearestFloat(i))))
    case JsonFloat(r) => Some(Float(Finite(r)))
    case _ => None
  }

  function BoolOfText(s: string): Option<bool> {
    if s in {"true", "yes", "1", "on"} then Some(true)
    else if s in {"false", "no", "0", "off"} then Some(false)
    else None
  }

  // -- operations that touch nothing but the value ---------------------------------------------

  predicate IsPureOp(op: Op) {
    !op.Map? && !op.ReadBytes? && !op.DecodeImage?
  }

  function Found(v: Option<Value>): Outcome<Value> {
    match v
    case Some(value) => Done(value)
    case None => Failed(ConversionFailed)
  }

  function ApplyPure(k: Library, v: Value, op: Op): Outcome<Value>
    requires IsPureOp(op)
  {
    if v.Absent? && !op.UnwrapOption? then Done(Absent)
    else match op
      case UnwrapOption => if v.Absent? then Failed(ConversionFailed) else Done(v)
      case ToText =>
        (match v
         case Int(i) => Done(Text(ShowInt(i)))
         case Float(f) => Done(Text(k.showFloat(f)))
         case Bool(b) => Done(Text(if b then "true" else "false"))
         case Text(t) => Done(Text(t))
         case _ => Failed(ConversionFailed))
      case IntToFloat =>
        if v.Int? && -TWO_53 <= v.i <= TWO_53 then Done(Float(Finite(v.i as real))) else Failed(ConversionFailed)
      case BoolToInt => if v.Bool? then Done(Int(if v.b then 1 else 0)) else Failed(ConversionFailed)
      case IntToBool => if v.Int? then Done(Bool(v.i != 0)) else Failed(ConversionFailed)
      case Round =>
        if v.Float? && v.f.Finite? && RoundToInt(v.f.r).Some? then Done(Int(RoundToInt(v.f.r).value))
        else Failed(ConversionFailed)
      case ParseInt =>
        if v.Text? && ParseInt64(Trim(k.whitespace, v.t)).Some?
        then Done(Int(ParseInt64(Trim(k.whitespace, v.t)).value))
        else Failed(ConversionFailed)
      case ParseFloat =>
        if v.Text? && k.parseFloat(Trim(k.whitespace, v.t)).Some?
        then Done(Float(k.parseFloat(Trim(k.whitespace, v.t)).value))
        else Failed(ConversionFailed)
      case ParseBool =>
        if v.Text? && BoolOfText(LowerAll(Trim(k.whitespace, v.t))).Some?
        then Done(Bool(BoolOfText(LowerAll(Trim(k.whitespace, v.t))).value))
        else Failed(ConversionFailed)
      case ParseJson =>
        if v.Text? && k.parseJson(v.t).Some? then Done(JsonValue(k.parseJson(v.t).value)) else Failed(ConversionFailed)
      case StringifyJson =>
        if v.JsonValue? && k.showJson(v.j).Some? then Done(Text(k.showJson(v.j).value)) else Failed(ConversionFailed)
      case EncodeJson =>
        if JsonOfScalar(v).Some? then Done(JsonValue(JsonOfScalar(v).value)) else Failed(ConversionFailed)
      case DecodeJson => if v.JsonValue? then Found(ScalarOfJson(k, v.j)) else Failed(ConversionFailed)
      case WriteTemp => if v.HandleValue? then Done(HandleValue(Handle(v.h.id, OfFile))) else Failed(ConversionFailed)
      case Pending(_) => Failed(ConversionUnavailable)
      case Unknown(_) => Failed(ConversionFailed)
  }

  // -- operations on what the host owns --------------------------------------------------------

  function FillScratch(k: Library, out: Handle, bytes: Bytes, node: NodeId, s: State): (State, Outcome<Value>) {
    var (t, written) := WriteOutput(s, node, out, bytes, k.writeFails(out.id));
    (t, match written
        case Done(_) => Done(HandleValue(out))
        case Failed(code) => Failed(code)
        case Denied(because) => Denied(because))
  }

  function StoreInScratch(k: Library, bytes: Bytes, node: NodeId, s: State): (State, Outcome<Value>) {
    var (t, created) := CreateOutput(k.machine, s, node, OfBytes, "content.bin", k.createFails(s.nextHandle));
    match created
    case Failed(code) => (t, Failed(code))
    case Denied(because) => (t, Denied(because))
    case Done(out) => FillScratch(k, out, bytes, node, t)
  }

  /** Reads host-side and puts the content behind a handle of the node's own. */
  function ReadIntoScratch(k: Library, h: Handle, node: NodeId, s: State): (State, Outcome<Value>) {
    match HostRead(s, h)
    case Failed(code) => (s, Failed(code))
    case Denied(because) => (s, Denied(because))
    case Done(bytes) => StoreInScratch(k, bytes, node, s)
  }

  /** Narrowing to an image is a claim about content, so the content is checked before the host's
      record changes. */
  function NarrowToImage(k: Library, h: Handle, s: State): (State, Outcome<Value>) {
    match HostRead(s, h)
    case Failed(code) => (s, Failed(code))
    case Denied(because) => (s, Denied(because))
    case Done(bytes) =>
      if !k.isImage(bytes) then (s, Failed(NotAnImage))
      else
        var (s1, relabelled) := Reclassify(s, h, OfImage);
        (s1, Done(HandleValue(relabelled)))
  }

  function ApplyOne(k: Library, v: Value, op: Op, node: NodeId, s: State): (State, Outcome<Value>)
    requires !op.Map?
  {
    if IsPureOp(op) then (s, ApplyPure(k, v, op))
    else if v.Absent? then (s, Done(Absent))
    else if !v.HandleValue? then (s, Failed(ConversionFailed))
    else if op.ReadBytes? then ReadIntoScratch(k, v.h, node, s)
    else NarrowToImage(k, v.h, s)
  }

  // -- chains ------------------------------------------------------------------------------------

  function ApplyOps(k: Library, v: Value, ops: seq<Op>, node: NodeId, s: State): (State, Outcome<Value>)
    decreases |ops|, 0
  {
    if ops == [] then (s, Done(v))
    else if ops[0].Map? then
      if !v.List? then (s, Failed(ConversionFailed))
      else
        var (t, o) := ApplyToEach(k, v.items, ops[1..], node, s);
        (t, AsList(o))
    else
      var (t, o) := ApplyOne(k, v, ops[0], node, s);
      if o.Done? then ApplyOps(k, o.value, ops[1..], node, t) else (t, o)
  }

  function AsList(o: Outcome<seq<Value>>): Outcome<Value> {
    match o
    case Done(items) => Done(List(items))
    case Failed(code) => Failed(code)
    case Denied(because) => Denied(because)
  }

  /** Element by element, each starting from what the one before left behind. */
  function ApplyToEach(k: Library, items: seq<Value>, ops: seq<Op>, node: NodeId, s: State)
      : (State, Outcome<seq<Value>>)
    decreases |ops|, 1 + |items|
  {
    if items == [] then (s, Done([]))
    else
      var (t, front) := ApplyToEach(k, Front(items), ops, node, s);
      if !front.Done? then (t, front)
      else
        var (u, last) := ApplyOps(k, Last(items), ops, node, t);
        (u, match last
            case Done(v) => Done(front.value + [v])
            case Failed(code) => Failed(code)
            case Denied(because) => Denied(because))
  }

  // -- the runtime doing it in place --------------------------------------------------------------

  method FillHandle(k: Library, out: Handle, bytes: Bytes, node: NodeId, broker: B.Broker) returns (o: Outcome<Value>)
    modifies broker, broker.disk
    ensures (broker.State(), o) == FillScratch(k, out, bytes, node, old(broker.State()))
  {
    var written := broker.WriteOutput(node, out, bytes, k.writeFails(out.id));
    match written {
      case Failed(code) => return Failed(code);
      case Denied(because) => return Denied(because);
      case Done(_) => return Done(HandleValue(out));
    }
  }

  method ReadBytesInto(k: Library, h: Handle, node: NodeId, broker: B.Broker) returns (o: Outcome<Value>)
    requires k.machine == broker.machine
    modifies broker, broker.disk
    ensures (broker.State(), o) == ReadIntoScratch(k, h, node, old(broker.State()))
  {
    var content := broker.HostRead(h);
    match content {
      case Failed(code) => return Failed(code);
      case Denied(because) => return Denied(because);
      case Done(bytes) =>
        var created := broker.CreateOutput(node, OfBytes, "content.bin", k.createFails(broker.nextHandle));
        match created {
          case Failed(code) => return Failed(code);
          case Denied(because) => return Denied(because);
          case Done(out) => o := FillHandle(k, out, bytes, node, broker);
        }
    }
  }

  method NarrowHandle(k: Library, h: Handle, broker: B.Broker) returns (o: Outcome<Value>)
    modifies broker
    ensures (broker.State(), o) == NarrowToImage(k, h, old(broker.State()))
  {
    var content := broker.HostRead(h);
    match content {
      case Failed(code) => return Failed(code);
      case Denied(because) => return Denied(because);
      case Done(bytes) =>
        if !k.isImage(bytes) {
          return Failed(NotAnImage);
        }
        var relabelled := broker.Reclassify(h, OfImage);
        o := Done(HandleValue(relabelled));
    }
  }

  method ConvertOne(k: Library, v: Value, op: Op, node: NodeId, broker: B.Broker) returns (o: Outcome<Value>)
    requires !op.Map? && k.machine == broker.machine
    modifies broker, broker.disk
    ensures (broker.State(), o) == ApplyOne(k, v, op, node, old(broker.State()))
  {
    if IsPureOp(op) {
      o := ApplyPure(k, v, op);
    } else if v.Absent? {
      o := Done(Absent);
    } else if !v.HandleValue? {
      o := Failed(ConversionFailed);
    } else if op.ReadBytes? {
      o := ReadBytesInto(k, v.h, node, broker);
    } else {
      o := NarrowHandle(k, v.h, broker);
    }
  }

  method ConvertAll(k: Library, v: Value, ops: seq<Op>, node: NodeId, broker: B.Broker) returns (o: Outcome<Value>)
    requires k.machine == broker.machine
    modifies broker, broker.disk
    ensures (broker.State(), o) == ApplyOps(k, v, ops, node, old(broker.State()))
    decreases |ops|, 0
  {
    var current := v;
    var index := 0;
    while index < |ops|
      invariant 0 <= index <= |ops|
      invariant ApplyOps(k, current, ops[index..], node, broker.State())
             == ApplyOps(k, v, ops, node, old(broker.State()))
    {
      var op, rest := ops[index], ops[index + 1..];
      assert ops[index..][0] == op && ops[index..][1..] == rest;
      if op.Map? {
        if !current.List? {
          return Failed(ConversionFailed);
        }
        var converted := ConvertEach(k, current.items, rest, node, broker);
        return AsList(converted);
      }
      var one := ConvertOne(k, current, op, node, broker);
      if !one.Done? {
        return one;
      }
      current := one.value;
      index := index + 1;
    }
    assert ops[index..] == [];
    o := Done(current);
  }

  method ConvertEach(k: Library, items: seq<Value>, ops: seq<Op>, node: NodeId, broker: B.Broker)
    returns (o: Outcome<seq<Value>>)
    requires k.machine == broker.machine
    modifies broker, broker.disk
    ensures (broker.State(), o) == ApplyToEach(k, items, ops, node, old(broker.State()))
    decreases |ops|, 1
  {
    var converted := [];
    var i := 0;
    while i < |items|
      invariant 0 <= i <= |items|
      invariant (broker.State(), Done(converted)) == ApplyToEach(k, items[..i], ops, node, old(broker.State()))
    {
      assert Front(items[..i + 1]) == items[..i];
      var one := ConvertAll(k, items[i], ops, node, broker);
      i := i + 1;
      match one {
        case Done(value) => converted := converted + [value];
        case Failed(code) =>
          FailureEndsTheList(k, items, ops, node, old(broker.State()), i);
          return Failed(code);
        case Denied(because) =>
          FailureEndsTheList(k, items, ops, node, old(broker.State()), i);
          return Denied(because);
      }
    }
    assert items[..i] == items;
    o := Done(converted);
  }

  lemma {:induction false} FailureEndsTheList(k: Library, items: seq<Value>, ops: seq<Op>, node: NodeId, s: State,
                                              i: nat)
    requires i <= |items| && !ApplyToEach(k, items[..i], ops, node, s).1.Done?
    ensures ApplyToEach(k, items, ops, node, s) == ApplyToEach(k, items[..i], ops, node, s)
    decreases |items|
  {
    if i == |items| {
      assert items[..i] == items;
    } else {
      assert Front(items)[..i] == items[..i];
      FailureEndsTheList(k, Front(items), ops, node, s, i);
    }
  }
}
