/** What a name read out of a DNS message looks like: how each byte is shown, how labels are put together, and where
    a compressed name leads and ends (sections 4.1.2 and 4.1.4 of RFC 1035). */
module DnsNames {
  import opened Common
  import opened Dns

  // -- one byte ----------------------------------------------------------------------------------------

  function HexValue(c: char): Option<nat> {
    if '0' <= c <= '9' then Some(c as int - '0' as int)
    else if 'a' <= c <= 'f' then Some(10 + (c as int - 'a' as int))
    else None
  }

  /** A byte is shown as the character it is from `!` to `~`, and otherwise as `\x` and two lower-case hex digits
      that stand for it. */
  lemma ByteShown(c: Byte)
    ensures 33 <= c <= 126 ==> LabelText([c]) == [c as char]
    ensures !(33 <= c <= 126) ==>
              var t := LabelText([c]);
              && |t| == 4 && t[0] == '\\' && t[1] == 'x'
              && HexValue(t[2]).Some? && HexValue(t[3]).Some?
              && HexValue(t[2]).value * 16 + HexValue(t[3]).value == c
  {
    assert [c][1..] == [];
    assert CharText(c) + [] == CharText(c);
  }

  /** Byte after byte. */
  lemma {:induction false} LabelTextOfConcat(a: Bytes, b: Bytes)
    ensures LabelText(a + b) == LabelText(a) + LabelText(b)
  {
    if a == [] {
      assert a + b == b;
    } else {
      assert (a + b)[0] == a[0] && (a + b)[1..] == a[1..] + b;
      LabelTextOfConcat(a[1..], b);
    }
  }

  // -- labels joined -----------------------------------------------------------------------------------

  /** The pieces of a text between its dots. */
  function Pieces(s: string): (r: seq<string>)
    ensures r != []
  {
    if s == [] then [[]]
    else if Last(s) == '.' then Pieces(Front(s)) + [[]]
    else
      var before := Pieces(Front(s));
      Front(before) + [Last(before) + [Last(s)]]
  }

  lemma {:induction false} NoDotOnePiece(s: string)
    requires '.' !in s
    ensures Pieces(s) == [s]
  {
    if s != [] {
      assert Last(s) in s && forall c :: c in Front(s) ==> c in s;
      NoDotOnePiece(Front(s));
      LongerPiece(s);
    }
  }

  lemma LongerPiece(s: string)
    requires s != [] && Last(s) != '.' && Pieces(Front(s)) == [Front(s)]
    ensures Pieces(s) == [s]
  {
    var before := [Front(s)];
    assert Front(before) == [] && Last(before) + [Last(s)] == s;
  }

  lemma {:induction false} OneMorePiece(s: string, t: string)
    requires '.' !in t
    ensures Pieces(s + ['.'] + t) == Pieces(s) + [t]
  {
    var whole := s + ['.'] + t;
    if t == [] {
      assert whole == s + ['.'];
      assert Front(whole) == s;
    } else {
      assert Last(t) in t && forall c :: c in Front(t) ==> c in t;
      OneMorePiece(s, Front(t));
      assert Front(whole) == s + ['.'] + Front(t);
      assert t == Front(t) + [Last(t)];
      assert Front(Pieces(s) + [Front(t)]) == Pieces(s);
    }
  }

  /** Labels without dots can be told from the name: it is they, with a dot between one and the next. */
  lemma {:induction false} LabelsArePieces(labels: seq<string>)
    requires labels != [] && forall i :: 0 <= i < |labels| ==> '.' !in labels[i]
    ensures Pieces(Join(labels)) == labels
  {
    if |labels| == 1 {
      NoDotOnePiece(labels[0]);
    } else {
      var front := Front(labels);
      assert forall i :: 0 <= i < |front| ==> front[i] == labels[i];
      LabelsArePieces(front);
      OneMorePiece(Join(front), Last(labels));
      assert labels == front + [Last(labels)];
    }
  }

  /** The root has no labels and is shown as one dot. */
  lemma RootIsADot(buf: Bytes, off: nat)
    requires off < |buf| && buf[off] == 0
    ensures Read(buf, off) == Name(".", off + 1)
  {
    ReadsEncodedNames(buf, off, []);
    assert NameText([]) == ".";
  }

  // -- pointers ------------------------------------------------------------------------------------------

  /** Two bytes of which the first has its two high bits set point to where the other fourteen say. */
  lemma PointerMeans(buf: Bytes, off: nat, target: nat)
    ensures PointerAt(buf, off, target) <==>
              off + 1 < |buf| && buf[off] >= 192 && target == (buf[off] as int - 192) * 256 + buf[off + 1] as int
  {
  }

  /** Labels as they stand in a message, each behind its length, with nothing that ends them. */
  function Open(labels: seq<Bytes>): Bytes
    requires forall i :: 0 <= i < |labels| ==> 0 < |labels[i]| < 64
  {
    if labels == [] then [] else [|labels[0]|] + labels[0] + Open(labels[1..])
  }

  function PointerTo(target: nat): (b: Bytes)
    requires target < 0x4000
  {
    [192 + target / 256, target % 256]
  }

  ghost predicate StandsAt(buf: Bytes, off: nat, part: Bytes) {
    off + |part| <= |buf| && buf[off..off + |part|] == part
  }

  lemma PartsStand(buf: Bytes, off: nat, a: Bytes, b: Bytes)
    requires StandsAt(buf, off, a + b)
    ensures StandsAt(buf, off, a) && StandsAt(buf, off + |a|, b)
  {
    var whole := buf[off..off + |a + b|];
    assert whole[..|a|] == a && whole[|a|..] == b;
    assert buf[off..off + |a|] == whole[..|a|];
    assert buf[off + |a|..off + |a| + |b|] == whole[|a|..];
  }

  lemma LabelStandsAt(buf: Bytes, off: nat, text: Bytes)
    requires 0 < |text| < 64 && StandsAt(buf, off, [|text|] + text)
    ensures LabelAt(buf, off, text)
  {
    PartsStand(buf, off, [|text|], text);
    assert buf[off..off + 1][0] == |text|;
  }

  lemma StepsInFront(labels: seq<Bytes>, steps: seq<Step>)
    requires labels != []
    ensures StepsOf(labels) + steps == [Label(labels[0])] + (StepsOf(labels[1..]) + steps)
  {
    StepsOfFirst(labels);
  }

  lemma OneLabelThen(buf: Bytes, off: nat, labels: seq<Bytes>, steps: seq<Step>)
    requires labels != [] && 0 < |labels[0]| < 64 && StandsAt(buf, off, [|labels[0]|] + labels[0])
    requires Encodes(buf, off + 1 + |labels[0]|, StepsOf(labels[1..]) + steps)
    ensures Encodes(buf, off, StepsOf(labels) + steps)
    ensures EndOf(off, StepsOf(labels) + steps) == EndOf(off + 1 + |labels[0]|, StepsOf(labels[1..]) + steps)
  {
    LabelStandsAt(buf, off, labels[0]);
    LabelFirst(buf, off, labels[0], StepsOf(labels[1..]) + steps);
    StepsInFront(labels, steps);
  }

  lemma FirstLabelStands(buf: Bytes, off: nat, labels: seq<Bytes>)
    requires labels != [] && forall i :: 0 <= i < |labels| ==> 0 < |labels[i]| < 64
    requires StandsAt(buf, off, Open(labels))
    ensures StandsAt(buf, off, [|labels[0]|] + labels[0])
    ensures StandsAt(buf, off + 1 + |labels[0]|, Open(labels[1..]))
    ensures |Open(labels)| == 1 + |labels[0]| + |Open(labels[1..])|
  {
    PartsStand(buf, off, [|labels[0]|] + labels[0], Open(labels[1..]));
  }

  lemma {:induction false} OpenThen(buf: Bytes, off: nat, labels: seq<Bytes>, here: nat, steps: seq<Step>)
    requires forall i :: 0 <= i < |labels| ==> 0 < |labels[i]| < 64
    requires StandsAt(buf, off, Open(labels)) && here == off + |Open(labels)| && Encodes(buf, here, steps)
    ensures Encodes(buf, off, StepsOf(labels) + steps)
    ensures EndOf(off, StepsOf(labels) + steps) == EndOf(here, steps)
    decreases |labels|
  {
    if labels == [] {
      assert StepsOf(labels) + steps == steps;
    } else {
      FirstLabelStands(buf, off, labels);
      OpenThen(buf, off + 1 + |labels[0]|, labels[1..], here, steps);
      OneLabelThen(buf, off, labels, steps);
    }
  }

  lemma {:induction false} LabelsOfConcat(a: seq<Step>, b: seq<Step>)
    ensures Labels(a + b) == Labels(a) + Labels(b)
  {
    if b == [] {
      assert a + b == a;
    } else {
      assert Front(a + b) == a + Front(b) && Last(a + b) == Last(b);
      LabelsOfConcat(a, Front(b));
    }
  }

  lemma PointerStands(buf: Bytes, off: nat, target: nat, steps: seq<Step>)
    requires target < 0x4000 && StandsAt(buf, off, PointerTo(target)) && Encodes(buf, target, steps)
    ensures Encodes(buf, off, [Pointer(target)] + steps) && EndOf(off, [Pointer(target)] + steps) == off + 2
  {
    assert buf[off..off + 2][0] == 192 + target / 256 && buf[off..off + 2][1] == target % 256;
    PointerMeans(buf, off, target);
    assert ([Pointer(target)] + steps)[1..] == steps;
  }

  lemma LabelsBehindPointer(labels: seq<Bytes>, target: nat, steps: seq<Step>)
    ensures Labels(StepsOf(labels) + ([Pointer(target)] + steps)) == Labels(StepsOf(labels)) + Labels(steps)
  {
    LabelsOfConcat(StepsOf(labels), [Pointer(target)] + steps);
    LabelsOfConcat([Pointer(target)], steps);
    assert Front([Pointer(target)]) == [];
    assert Labels([Pointer(target)]) == [];
  }

  /** A compressed name: labels and then a pointer to a name that stands anywhere in the message, before or behind.
      It is read as the labels and then that name's, and the message goes on behind the pointer. */
  lemma ReadsCompressedNames(buf: Bytes, off: nat, labels: seq<Bytes>, target: nat, steps: seq<Step>)
    requires forall i :: 0 <= i < |labels| ==> 0 < |labels[i]| < 64
    requires target < 0x4000 && StandsAt(buf, off, Open(labels) + PointerTo(target)) && Encodes(buf, target, steps)
    requires |labels| + 1 + |steps| < 128
    ensures Read(buf, off)
         == Name(DotIfEmpty(Join(Labels(StepsOf(labels)) + Labels(steps))), off + |Open(labels)| + 2)
  {
    var here := off + |Open(labels)|;
    PartsStand(buf, off, Open(labels), PointerTo(target));
    PointerStands(buf, here, target, steps);
    OpenThen(buf, off, labels, here, [Pointer(target)] + steps);
    ReadsEncodedNames(buf, off, StepsOf(labels) + ([Pointer(target)] + steps));
    LabelsBehindPointer(labels, target, steps);
  }

  // -- how far a reader goes -----------------------------------------------------------------------------

  /** At 127 labels and pointers a name can be read; at 128 it cannot, however it is put together. */
  lemma StepsAreCounted(buf: Bytes, off: nat, steps: seq<Step>)
    requires Encodes(buf, off, steps)
    ensures Read(buf, off).Name? <==> |steps| <= 127
  {
    ReadableExactly(buf, off);
    if HasName(buf, off) {
      var others :| Encodes(buf, off, others) && |others| < MAX_STEPS;
      EncodingIsUnique(buf, off, steps, others);
    }
  }

  /** How many questions are looked at: as many as the header counts, up to 64. */
  lemma QuestionsAreCounted(payload: Bytes)
    requires |payload| >= 12
    ensures var count := payload[4] as int * 256 + payload[5] as int;
            QuestionCount(payload) == if count < 64 then count else 64
    ensures |QuestionNames(payload)| <= 64
  {
    var questions := OnlyQuestionsAreNamed(payload);
    NamesCounted(questions);
  }

  lemma {:induction false} NamesCounted(questions: seq<Name>)
    requires forall q :: q in questions ==> q.Name?
    ensures |NamesOf(questions)| == |questions|
    ensures forall i :: 0 <= i < |questions| ==> NamesOf(questions)[i] == questions[i].text
  {
    if questions != [] {
      assert forall q :: q in Front(questions) ==> q in questions;
      NamesCounted(Front(questions));
    }
  }

  /** Behind one question come four bytes of type and class, and then the next; a payload too short for a header
      asks nothing. */
  lemma NextQuestionStands(payload: Bytes, questions: seq<Name>, name: Name)
    requires name.Name?
    ensures Behind(MESSAGE_HEADER, questions + [name]) == name.end + 4
    ensures Behind(MESSAGE_HEADER, []) == 12
    ensures |payload| < 12 ==> QuestionNames(payload) == []
  {
  }
}
