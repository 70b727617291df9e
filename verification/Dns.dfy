/** Reading a domain name out of a DNS message (section 4.1.4 of RFC 1035), compression pointers followed,
    and the names in its question section. */
module Dns {
  import opened Common

  const MAX_STEPS := 128
  const MAX_QUESTIONS := 64
  const MESSAGE_HEADER := 12

  // -- what an encoded name is ------------------------------------------------------------------------

  /** One move of a reader: over a label, or to where a pointer points. */
  datatype Step = Label(text: Bytes) | Pointer(target: nat)

  function Short(high: nat, low: nat): nat { high * 0x100 + low }

  function TargetAt(buf: Bytes, off: nat): nat
    requires off + 1 < |buf|
  {
    Short(buf[off] % 0x40, buf[off + 1])
  }

  predicate LabelAt(buf: Bytes, off: nat, text: Bytes) {
    && 0 < |text| < 0x40 && off + 1 + |text| <= |buf|
    && buf[off] == |text| && buf[off + 1..off + 1 + |text|] == text
  }

  predicate PointerAt(buf: Bytes, off: nat, target: nat) {
    off + 1 < |buf| && buf[off] >= 0xC0 && TargetAt(buf, off) == target
  }

  predicate StepAt(buf: Bytes, off: nat, step: Step) {
    match step
    case Label(text) => LabelAt(buf, off, text)
    case Pointer(target) => PointerAt(buf, off, target)
  }

  /** These steps, one after the other from `off`, come to a zero byte. */
  predicate Encodes(buf: Bytes, off: nat, steps: seq<Step>)
    decreases |steps|
  {
    if steps == [] then off < |buf| && buf[off] == 0
    else match steps[0]
      case Label(text) => LabelAt(buf, off, text) && Encodes(buf, off + 1 + |text|, steps[1..])
      case Pointer(target) => PointerAt(buf, off, target) && Encodes(buf, target, steps[1..])
  }

  function HexDigit(n: nat): char
    requires n < 16
  {
    if n < 10 then '0' + n as char else 'a' + (n - 10) as char
  }

  predicate Printable(c: Byte) { 32 < c < 127 }

  function CharText(c: Byte): string {
    if Printable(c) then [c as char] else ['\\', 'x', HexDigit(c / 16), HexDigit(c % 16)]
  }

  function LabelText(label0: Bytes): string {
    if label0 == [] then [] else CharText(label0[0]) + LabelText(label0[1..])
  }

  function Labels(steps: seq<Step>): seq<string> {
    if steps == [] then []
    else if Last(steps).Label? then Labels(Front(steps)) + [LabelText(Last(steps).text)]
    else Labels(Front(steps))
  }

  function Join(labels: seq<string>): string {
    if labels == [] then []
    else if |labels| == 1 then labels[0]
    else Join(Front(labels)) + ['.'] + Last(labels)
  }

  function DotIfEmpty(s: string): string {
    if s == [] then ['.'] else s
  }

  function NameText(steps: seq<Step>): string {
    DotIfEmpty(Join(Labels(steps)))
  }

  /** Where the name ends in the message: behind its zero byte, or behind the first pointer. */
  function EndOf(off: nat, steps: seq<Step>): nat
    decreases |steps|
  {
    if steps == [] then off + 1
    else match steps[0]
      case Label(text) => EndOf(off + 1 + |text|, steps[1..])
      case Pointer(_) => off + 2
  }

  // -- the reader -------------------------------------------------------------------------------------

  /** The steps a reader takes when it may look at `fuel` places. */
  function Walk(buf: Bytes, off: nat, fuel: nat): Option<seq<Step>>
    decreases fuel, off
  {
    if fuel == 0 || off >= |buf| then None
    else
      var n := buf[off];
      if n == 0 then Some([])
      else if n >= 0xC0 then
        if off + 1 >= |buf| then None
        else Then([Pointer(TargetAt(buf, off))], Walk(buf, TargetAt(buf, off), fuel - 1))
      else if n >= 0x40 || off + 1 + n > |buf| then None
      else Then([Label(buf[off + 1..off + 1 + n])], Walk(buf, off + 1 + n, fuel - 1))
  }

  function Then(steps: seq<Step>, rest: Option<seq<Step>>): Option<seq<Step>> {
    if rest.None? then None else Some(steps + rest.value)
  }

  lemma ThenThen(a: seq<Step>, b: seq<Step>, rest: Option<seq<Step>>)
    ensures Then(a, Then(b, rest)) == Then(a + b, rest)
  {
    if rest.Some? {
      assert a + (b + rest.value) == a + b + rest.value;
    }
  }

  datatype Name = Name(text: string, end: nat) | Unreadable

  lemma ThenNothing(rest: Option<seq<Step>>)
    ensures Then([], rest) == rest
  {
    if rest.Some? {
      assert [] + rest.value == rest.value;
    }
  }

  function Read(buf: Bytes, off: nat): Name {
    var steps := Walk(buf, off, MAX_STEPS);
    if steps.None? then Unreadable else Name(NameText(steps.value), EndOf(off, steps.value))
  }

  /** What the loop keeps: where it stands, the labels so far, and the first place behind a pointer. */
  datatype Reader = Reader(off: nat, labels: seq<string>, end: Option<nat>)

  function Take(r: Reader, step: Step): Reader {
    match step
    case Label(text) => Reader(r.off + 1 + |text|, r.labels + [LabelText(text)], r.end)
    case Pointer(target) => Reader(target, r.labels, if r.end.None? then Some(r.off + 2) else r.end)
  }

  function TakeAll(r: Reader, steps: seq<Step>): Reader {
    if steps == [] then r else Take(TakeAll(r, Front(steps)), Last(steps))
  }

  lemma {:induction false} LabelsTaken(r: Reader, steps: seq<Step>)
    ensures TakeAll(r, steps).labels == r.labels + Labels(steps)
  {
    if steps != [] {
      LabelsTaken(r, Front(steps));
    }
  }

  lemma {:induction false} FirstTaken(r: Reader, steps: seq<Step>)
    requires steps != []
    ensures TakeAll(r, steps) == TakeAll(Take(r, steps[0]), steps[1..])
  {
    if |steps| == 1 {
      assert Front(steps) == [] && steps[1..] == [];
    } else {
      assert Front(steps)[0] == steps[0] && Front(steps)[1..] == Front(steps[1..]);
      FirstTaken(r, Front(steps));
    }
  }

  function EndNoted(r: Reader): nat { if r.end.Some? then r.end.value else r.off + 1 }

  lemma {:induction false} EndTaken(r: Reader, steps: seq<Step>)
    ensures EndNoted(TakeAll(r, steps)) == if r.end.Some? then r.end.value else EndOf(r.off, steps)
    decreases |steps|
  {
    if steps != [] {
      FirstTaken(r, steps);
      EndTaken(Take(r, steps[0]), steps[1..]);
    }
  }

  /** A reader that has taken `steps` stands where `r` says and may look at `left` more places. */
  ghost predicate Underway(buf: Bytes, start: nat, steps: seq<Step>, r: Reader, left: nat) {
    && Walk(buf, start, MAX_STEPS) == Then(steps, Walk(buf, r.off, left))
    && r == TakeAll(Reader(start, [], None), steps)
  }

  lemma UnderwayAtFirst(buf: Bytes, start: nat)
    ensures Underway(buf, start, [], Reader(start, [], None), MAX_STEPS)
  {
    ThenNothing(Walk(buf, start, MAX_STEPS));
  }

  lemma WalkOn(buf: Bytes, r: Reader, left: nat, step: Step)
    requires left > 0
    requires StepAt(buf, r.off, step)
    ensures Walk(buf, r.off, left) == Then([step], Walk(buf, Take(r, step).off, left - 1))
  {
  }

  lemma UnderwayStill(buf: Bytes, start: nat, steps: seq<Step>, r: Reader, left: nat, step: Step)
    requires Underway(buf, start, steps, r, left) && left > 0
    requires StepAt(buf, r.off, step)
    ensures Underway(buf, start, steps + [step], Take(r, step), left - 1)
  {
    WalkOn(buf, r, left, step);
    ThenThen(steps, [step], Walk(buf, Take(r, step).off, left - 1));
    assert Front(steps + [step]) == steps;
  }

  lemma UnderwayDone(buf: Bytes, start: nat, steps: seq<Step>, r: Reader, left: nat)
    requires Underway(buf, start, steps, r, left) && left > 0 && r.off < |buf| && buf[r.off] == 0
    ensures Read(buf, start) == Name(DotIfEmpty(Join(r.labels)), EndNoted(r))
  {
    assert Walk(buf, r.off, left) == Some([]);
    assert steps + [] == steps;
    var first := Reader(start, [], None);
    LabelsTaken(first, steps);
    EndTaken(first, steps);
    assert [] + Labels(steps) == Labels(steps);
  }

  /** There is no label, no pointer and no end here. */
  predicate Stuck(buf: Bytes, off: nat) {
    || off >= |buf|
    || (buf[off] >= 0xC0 && off + 1 >= |buf|)
    || 0x40 <= buf[off] < 0xC0
    || (0 < buf[off] < 0x40 && off + 1 + buf[off] > |buf|)
  }

  lemma UnderwayLost(buf: Bytes, start: nat, steps: seq<Step>, r: Reader, left: nat)
    requires Underway(buf, start, steps, r, left) && (left == 0 || Stuck(buf, r.off))
    ensures Read(buf, start) == Unreadable
  {
    assert Walk(buf, r.off, left) == None;
  }

  /** The loop as it runs: it keeps the labels and the first place behind a pointer, and gives up after
      128 places whatever the pointers do. */
  method DnsName(buf: Bytes, start: nat) returns (name: Name)
    ensures name == Read(buf, start)
  {
    var off: nat := start;
    var labels: seq<string> := [];
    var end: Option<nat> := None;
    ghost var steps: seq<Step> := [];
    UnderwayAtFirst(buf, start);
    for i := 0 to MAX_STEPS
      invariant Underway(buf, start, steps, Reader(off, labels, end), MAX_STEPS - i)
    {
      if off >= |buf| {
        UnderwayLost(buf, start, steps, Reader(off, labels, end), MAX_STEPS - i);
        return Unreadable;
      }
      var n := buf[off];
      if n == 0 {
        UnderwayDone(buf, start, steps, Reader(off, labels, end), MAX_STEPS - i);
        return Name(DotIfEmpty(Join(labels)), if end.Some? then end.value else off + 1);
      }
      if n >= 0xC0 {
        if off + 1 >= |buf| {
          UnderwayLost(buf, start, steps, Reader(off, labels, end), MAX_STEPS - i);
          return Unreadable;
        }
        var target := TargetAt(buf, off);
        assert StepAt(buf, off, Pointer(target));
        UnderwayStill(buf, start, steps, Reader(off, labels, end), MAX_STEPS - i, Pointer(target));
        steps := steps + [Pointer(target)];
        if end.None? {
          end := Some(off + 2);
        }
        off := target;
      } else if n >= 0x40 || |buf| < off + 1 + n {
        UnderwayLost(buf, start, steps, Reader(off, labels, end), MAX_STEPS - i);
        return Unreadable;
      } else {
        var text := buf[off + 1..off + 1 + n];
        assert StepAt(buf, off, Label(text));
        UnderwayStill(buf, start, steps, Reader(off, labels, end), MAX_STEPS - i, Label(text));
        steps := steps + [Label(text)];
        labels := labels + [LabelText(text)];
        off := off + 1 + n;
      }
    }
    UnderwayLost(buf, start, steps, Reader(off, labels, end), 0);
    name := Unreadable;
  }

  // -- it reads exactly the encoded names ---------------------------------------------------------------

  lemma {:induction false} WalkIsEncoding(buf: Bytes, off: nat, fuel: nat)
    requires Walk(buf, off, fuel).Some?
    ensures Encodes(buf, off, Walk(buf, off, fuel).value) && |Walk(buf, off, fuel).value| < fuel
    decreases fuel
  {
    var n, steps := buf[off], Walk(buf, off, fuel).value;
    if n != 0 {
      if n >= 0xC0 {
        WalkIsEncoding(buf, TargetAt(buf, off), fuel - 1);
        assert steps[1..] == Walk(buf, TargetAt(buf, off), fuel - 1).value;
      } else {
        WalkIsEncoding(buf, off + 1 + n, fuel - 1);
        assert steps[1..] == Walk(buf, off + 1 + n, fuel - 1).value;
      }
    }
  }

  lemma {:induction false} EncodingIsWalked(buf: Bytes, off: nat, steps: seq<Step>, fuel: nat)
    requires Encodes(buf, off, steps) && |steps| < fuel
    ensures Walk(buf, off, fuel) == Some(steps)
    decreases |steps|
  {
    if steps != [] {
      assert steps == [steps[0]] + steps[1..];
      match steps[0]
      case Label(text) => EncodingIsWalked(buf, off + 1 + |text|, steps[1..], fuel - 1);
      case Pointer(target) => EncodingIsWalked(buf, target, steps[1..], fuel - 1);
    }
  }

  /** A name encoded with at most 127 labels and pointers is read as its labels joined by dots, and the
      reader goes on behind its zero byte or its first pointer. */
  lemma ReadsEncodedNames(buf: Bytes, off: nat, steps: seq<Step>)
    requires Encodes(buf, off, steps) && |steps| < MAX_STEPS
    ensures Read(buf, off) == Name(NameText(steps), EndOf(off, steps))
  {
    EncodingIsWalked(buf, off, steps, MAX_STEPS);
  }

  ghost predicate HasName(buf: Bytes, off: nat) {
    exists steps :: Encodes(buf, off, steps) && |steps| < MAX_STEPS
  }

  /** And nothing else is: on every buffer and every pointer graph, a name is returned exactly when one is
      encoded there in that many steps. */
  lemma ReadableExactly(buf: Bytes, off: nat)
    ensures Read(buf, off).Name? <==> HasName(buf, off)
  {
    if Read(buf, off).Name? {
      WalkIsEncoding(buf, off, MAX_STEPS);
    }
    if HasName(buf, off) {
      var steps :| Encodes(buf, off, steps) && |steps| < MAX_STEPS;
      ReadsEncodedNames(buf, off, steps);
    }
  }

  ghost predicate IsNameAt(buf: Bytes, off: nat, name: Name) {
    exists steps :: Encodes(buf, off, steps) && |steps| < MAX_STEPS && name == Name(NameText(steps), EndOf(off, steps))
  }

  lemma ReadsExactly(buf: Bytes, off: nat, name: Name)
    requires name.Name?
    ensures Read(buf, off) == name <==> IsNameAt(buf, off, name)
  {
    if Read(buf, off) == name {
      WalkIsEncoding(buf, off, MAX_STEPS);
    }
    if IsNameAt(buf, off, name) {
      var steps :|
        Encodes(buf, off, steps) && |steps| < MAX_STEPS && name == Name(NameText(steps), EndOf(off, steps));
      ReadsEncodedNames(buf, off, steps);
    }
  }

  lemma EncodingIsUnique(buf: Bytes, off: nat, a: seq<Step>, b: seq<Step>)
    requires Encodes(buf, off, a) && Encodes(buf, off, b)
    ensures a == b
  {
    EncodingIsWalked(buf, off, a, |a| + |b| + 1);
    EncodingIsWalked(buf, off, b, |a| + |b| + 1);
  }

  // -- loops ------------------------------------------------------------------------------------------

  /** These steps, one after the other, can be taken from `off` and end at `to`. */
  predicate Leads(buf: Bytes, off: nat, steps: seq<Step>, to: nat)
    decreases |steps|
  {
    if steps == [] then off == to
    else match steps[0]
      case Label(text) => LabelAt(buf, off, text) && Leads(buf, off + 1 + |text|, steps[1..], to)
      case Pointer(target) => PointerAt(buf, off, target) && Leads(buf, target, steps[1..], to)
  }

  /** A name that can be read from the end of a path can be read from its start, path first. */
  lemma {:induction false} PathThenName(buf: Bytes, off: nat, path: seq<Step>, to: nat, steps: seq<Step>)
    requires Leads(buf, off, path, to) && Encodes(buf, to, steps)
    ensures Encodes(buf, off, path + steps)
    decreases |path|
  {
    if path == [] {
      assert path + steps == steps;
    } else {
      assert (path + steps)[1..] == path[1..] + steps;
      match path[0]
      case Label(text) => PathThenName(buf, off + 1 + |text|, path[1..], to, steps);
      case Pointer(target) => PathThenName(buf, target, path[1..], to, steps);
    }
  }

  /** No name is read anywhere on a loop, however labels and pointers make it up. */
  lemma LoopsAreRefused(buf: Bytes, off: nat, loop: seq<Step>)
    requires loop != [] && Leads(buf, off, loop, off)
    ensures Read(buf, off) == Unreadable
  {
    if Read(buf, off).Name? {
      ReadableExactly(buf, off);
      var steps :| Encodes(buf, off, steps) && |steps| < MAX_STEPS;
      PathThenName(buf, off, loop, off, steps);
      assert |loop + steps| > |steps|;
      EncodingIsUnique(buf, off, steps, loop + steps);
    }
  }

  // -- a name written without compression ---------------------------------------------------------------

  predicate PlainLabels(labels: seq<Bytes>) {
    forall i :: 0 <= i < |labels| ==> 0 < |labels[i]| < 0x40 && forall c :: c in labels[i] ==> Printable(c)
  }

  function Written(labels: seq<Bytes>): Bytes
    requires PlainLabels(labels)
  {
    if labels == [] then [0] else [|labels[0]|] + labels[0] + Written(labels[1..])
  }

  function StepsOf(labels: seq<Bytes>): seq<Step> {
    seq(|labels|, i requires 0 <= i < |labels| => Label(labels[i]))
  }

  function AsText(label0: Bytes): (s: string)
    ensures |s| == |label0|
  {
    seq(|label0|, i requires 0 <= i < |label0| => label0[i] as char)
  }

  function AsTexts(labels: seq<Bytes>): seq<string> {
    seq(|labels|, i requires 0 <= i < |labels| => AsText(labels[i]))
  }

  lemma {:induction false} PlainText(label0: Bytes)
    requires forall c :: c in label0 ==> Printable(c)
    ensures LabelText(label0) == AsText(label0)
  {
    if label0 != [] {
      PlainText(label0[1..]);
      assert AsText(label0) == [label0[0] as char] + AsText(label0[1..]);
    }
  }

  lemma {:induction false} PlainTexts(labels: seq<Bytes>)
    requires PlainLabels(labels)
    ensures Labels(StepsOf(labels)) == AsTexts(labels)
  {
    if labels != [] {
      PlainText(Last(labels));
      PlainTexts(Front(labels));
      assert Front(StepsOf(labels)) == StepsOf(Front(labels));
      assert AsTexts(labels) == AsTexts(Front(labels)) + [AsText(Last(labels))];
    }
  }

  lemma LabelStands(before: Bytes, text: Bytes, after: Bytes)
    requires 0 < |text| < 0x40
    ensures LabelAt(before + ([|text|] + text) + after, |before|, text)
  {
    var buf := before + ([|text|] + text) + after;
    assert buf[|before| + 1..|before| + 1 + |text|] == text;
  }

  lemma {:induction false} WrittenIsEncoded(before: Bytes, labels: seq<Bytes>, after: Bytes)
    requires PlainLabels(labels)
    ensures Encodes(before + Written(labels) + after, |before|, StepsOf(labels))
    ensures EndOf(|before|, StepsOf(labels)) == |before| + |Written(labels)|
    decreases |labels|
  {
    if labels == [] {
      assert (before + [0] + after)[|before|] == 0;
    } else {
      var text, rest := labels[0], Written(labels[1..]);
      WrittenIsEncoded(before + ([|text|] + text), labels[1..], after);
      WrittenStep(before, text, rest, after, StepsOf(labels[1..]));
      StepsOfFirst(labels);
    }
  }

  lemma WrittenStep(before: Bytes, text: Bytes, rest: Bytes, after: Bytes, steps: seq<Step>)
    requires 0 < |text| < 0x40
    requires var first := [|text|] + text; Encodes(before + first + rest + after, |before + first|, steps)
    ensures Encodes(before + ([|text|] + text + rest) + after, |before|, [Label(text)] + steps)
    ensures EndOf(|before|, [Label(text)] + steps) == EndOf(|before + ([|text|] + text)|, steps)
  {
    var first := [|text|] + text;
    LabelStands(before, text, rest + after);
    Regroup(before, first, rest, after);
    LabelFirst(before + (first + rest) + after, |before|, text, steps);
  }

  lemma Regroup(a: Bytes, b: Bytes, c: Bytes, d: Bytes)
    ensures a + (b + c) + d == a + b + (c + d) && a + b + (c + d) == a + b + c + d
  {
  }

  lemma StepsOfFirst(labels: seq<Bytes>)
    requires labels != []
    ensures StepsOf(labels) == [Label(labels[0])] + StepsOf(labels[1..])
  {
  }

  lemma LabelFirst(buf: Bytes, off: nat, text: Bytes, steps: seq<Step>)
    requires LabelAt(buf, off, text) && Encodes(buf, off + 1 + |text|, steps)
    ensures Encodes(buf, off, [Label(text)] + steps)
    ensures EndOf(off, [Label(text)] + steps) == EndOf(off + 1 + |text|, steps)
  {
    assert ([Label(text)] + steps)[1..] == steps;
  }

  /** Up to 127 printable labels, written anywhere in a message, are read back as themselves. */
  lemma ReadInvertsWrite(before: Bytes, labels: seq<Bytes>, after: Bytes)
    requires PlainLabels(labels) && |labels| < MAX_STEPS
    ensures Read(before + Written(labels) + after, |before|)
            == Name(DotIfEmpty(Join(AsTexts(labels))), |before| + |Written(labels)|)
  {
    WrittenIsEncoded(before, labels, after);
    ReadsEncodedNames(before + Written(labels) + after, |before|, StepsOf(labels));
    PlainTexts(labels);
  }

  /** A longer one is refused. */
  lemma TooManyLabelsAreRefused(before: Bytes, labels: seq<Bytes>, after: Bytes)
    requires PlainLabels(labels) && |labels| >= MAX_STEPS
    ensures Read(before + Written(labels) + after, |before|) == Unreadable
  {
    var buf := before + Written(labels) + after;
    WrittenIsEncoded(before, labels, after);
    ReadableExactly(buf, |before|);
    forall steps | Encodes(buf, |before|, steps) ensures |steps| >= MAX_STEPS {
      EncodingIsUnique(buf, |before|, steps, StepsOf(labels));
    }
  }

  // -- the question section -----------------------------------------------------------------------------

  /** Names read so far, and where the next question stands unless one could not be read. */
  datatype Asked = Asked(names: seq<string>, next: Option<nat>)

  function AskNext(sofar: Asked, name: Name): Asked {
    match name
    case Unreadable => Asked(sofar.names, None)
    case Name(text, end) => Asked(sofar.names + [text], Some(end + 4))
  }

  /** The names some reader reads one after the other, four bytes of type and class behind each, up to `n`. */
  function Ask(read: nat -> Name, off: nat, n: nat): Asked {
    if n == 0 then Asked([], Some(off))
    else
      var sofar := Ask(read, off, n - 1);
      if sofar.next.None? then sofar else AskNext(sofar, read(sofar.next.value))
  }

  lemma {:induction false} NothingBehindTheUnreadable(read: nat -> Name, off: nat, n: nat, m: nat)
    requires n <= m && Ask(read, off, n).next.None?
    ensures Ask(read, off, m) == Ask(read, off, n)
  {
    if n < m {
      NothingBehindTheUnreadable(read, off, n, m - 1);
    }
  }

  function Reading(payload: Bytes): nat -> Name {
    (off: nat) => Read(payload, off)
  }

  function QuestionCount(payload: Bytes): nat
    requires |payload| >= MESSAGE_HEADER
  {
    var count := Short(payload[4], payload[5]);
    if count < MAX_QUESTIONS then count else MAX_QUESTIONS
  }

  function QuestionNames(payload: Bytes): seq<string> {
    if |payload| < MESSAGE_HEADER then []
    else Ask(Reading(payload), MESSAGE_HEADER, QuestionCount(payload)).names
  }

  method DnsQuestionNames(payload: Bytes) returns (names: seq<string>)
    ensures names == QuestionNames(payload)
  {
    names := [];
    if |payload| < MESSAGE_HEADER {
      return;
    }
    var off: nat, count := MESSAGE_HEADER, QuestionCount(payload);
    ghost var read := Reading(payload);
    for i := 0 to count
      invariant Ask(read, MESSAGE_HEADER, i) == Asked(names, Some(off))
    {
      var name := DnsName(payload, off);
      assert read(off) == name;
      if name.Unreadable? {
        NothingBehindTheUnreadable(read, MESSAGE_HEADER, i + 1, count);
        return;
      }
      names := names + [name.text];
      off := name.end + 4;
    }
  }

  /** Where the question behind these stands. */
  function Behind(off: nat, questions: seq<Name>): nat {
    if questions == [] || Last(questions).Unreadable? then off else Last(questions).end + 4
  }

  function NamesOf(questions: seq<Name>): seq<string>
    requires forall q :: q in questions ==> q.Name?
  {
    if questions == [] then [] else NamesOf(Front(questions)) + [Last(questions).text]
  }

  /** The reader finds each of these names where the one before it ended. */
  ghost predicate AreRead(read: nat -> Name, off: nat, questions: seq<Name>) {
    forall i :: 0 <= i < |questions| ==> questions[i].Name? && read(Behind(off, questions[..i])) == questions[i]
  }

  lemma {:induction false} WhatIsReadIsAsked(read: nat -> Name, off: nat, questions: seq<Name>)
    requires AreRead(read, off, questions)
    ensures Ask(read, off, |questions|) == Asked(NamesOf(questions), Some(Behind(off, questions)))
  {
    if questions != [] {
      var front := Front(questions);
      assert forall i :: 0 <= i < |front| ==> questions[..i] == front[..i];
      assert read(Behind(off, questions[..|front|])) == Last(questions);
      WhatIsReadIsAsked(read, off, front);
    }
  }

  lemma {:induction false} WhatIsAskedIsRead(read: nat -> Name, off: nat, n: nat) returns (questions: seq<Name>)
    ensures AreRead(read, off, questions) && NamesOf(questions) == Ask(read, off, n).names && |questions| <= n
    ensures |questions| < n ==> read(Behind(off, questions)).Unreadable?
  {
    questions := [];
    if n > 0 {
      var before := WhatIsAskedIsRead(read, off, n - 1);
      WhatIsReadIsAsked(read, off, before);
      var name := read(Behind(off, before));
      if |before| < n - 1 {
        NothingBehindTheUnreadable(read, off, |before| + 1, n - 1);
        questions := before;
      } else if name.Unreadable? {
        questions := before;
      } else {
        OneMoreIsRead(read, off, before);
        questions := before + [name];
      }
    }
  }

  lemma OneMoreIsRead(read: nat -> Name, off: nat, before: seq<Name>)
    requires AreRead(read, off, before) && read(Behind(off, before)).Name?
    ensures var name := read(Behind(off, before));
            AreRead(read, off, before + [name]) && NamesOf(before + [name]) == NamesOf(before) + [name.text]
  {
    var questions := before + [read(Behind(off, before))];
    assert forall i :: 0 <= i < |before| ==> questions[..i] == before[..i];
    assert questions[..|before|] == before && Front(questions) == before;
  }

  /** A question section: names encoded one behind the other. */
  ghost predicate AreQuestions(payload: Bytes, questions: seq<Name>) {
    forall i :: 0 <= i < |questions| ==>
                  questions[i].Name? && IsNameAt(payload, Behind(MESSAGE_HEADER, questions[..i]), questions[i])
  }

  /** Every name asked for is returned, in order, when the section can be read and the limit is kept. */
  lemma EveryQuestionIsNamed(payload: Bytes, questions: seq<Name>)
    requires |payload| >= MESSAGE_HEADER && AreQuestions(payload, questions)
    requires |questions| == QuestionCount(payload)
    ensures QuestionNames(payload) == NamesOf(questions)
  {
    forall i | 0 <= i < |questions|
      ensures Reading(payload)(Behind(MESSAGE_HEADER, questions[..i])) == questions[i]
    {
      ReadsExactly(payload, Behind(MESSAGE_HEADER, questions[..i]), questions[i]);
    }
    WhatIsReadIsAsked(Reading(payload), MESSAGE_HEADER, questions);
  }

  /** And nothing is returned that was not asked: what comes back is the longest section that can be read. */
  lemma OnlyQuestionsAreNamed(payload: Bytes) returns (questions: seq<Name>)
    requires |payload| >= MESSAGE_HEADER
    ensures AreQuestions(payload, questions) && QuestionNames(payload) == NamesOf(questions)
    ensures |questions| <= QuestionCount(payload)
    ensures |questions| < QuestionCount(payload) ==> !HasName(payload, Behind(MESSAGE_HEADER, questions))
  {
    questions := WhatIsAskedIsRead(Reading(payload), MESSAGE_HEADER, QuestionCount(payload));
    forall i | 0 <= i < |questions|
      ensures questions[i].Name? && IsNameAt(payload, Behind(MESSAGE_HEADER, questions[..i]), questions[i])
    {
      assert Reading(payload)(Behind(MESSAGE_HEADER, questions[..i])) == questions[i];
      ReadsExactly(payload, Behind(MESSAGE_HEADER, questions[..i]), questions[i]);
    }
    ReadableExactly(payload, Behind(MESSAGE_HEADER, questions));
  }
}
