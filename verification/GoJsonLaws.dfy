/** What the event machine reports, read off the lines themselves. */
module GoJsonLaws {
  import opened Words
  import opened Options
  import opened Selections
  import opened GoJson

  /** The line is an event of this test of this package. */
  predicate Mentions(line: Line, key: Key) {
    && line.Event? && line.e.test == Some(key.1)
    && (line.e.package == Some(key.0) || (line.e.package.None? && key.0 == ""))
  }

  predicate Ends(line: Line) {
    line.Event? && line.e.test.Some? && line.e.action in ["pass", "fail", "skip"]
  }

  /** Blank, or an event with a known action; without a test any action will do. */
  predicate Readable(line: Line) {
    match line
    case Blank => true
    case Undecodable => false
    case Event(e) =>
      e.action != "" &&
      (e.test.Some? ==> e.action in ["output", "pass", "fail", "skip", "run", "pause", "cont", "start", "bench"])
  }

  /** What the test has printed since it last ended. */
  ghost function Printed(lines: seq<Line>, i: nat, key: Key): string
    requires i <= |lines|
  {
    if i == 0 then ""
    else
      var line := lines[i - 1];
      if !Mentions(line, key) then Printed(lines, i - 1, key)
      else if Ends(line) then ""
      else
        Printed(lines, i - 1, key)
        + if line.e.action == "output" && line.e.output.Some? then line.e.output.value else ""
  }

  /** The last line about the test does not end it. */
  ghost predicate IsOpen(lines: seq<Line>, i: nat, key: Key)
    requires i <= |lines|
  {
    exists j :: 0 <= j < i && Mentions(lines[j], key) && !Ends(lines[j])
             && forall k :: j < k < i ==> !Mentions(lines[k], key)
  }

  /** The case that line k ends: its names, its verdict, its duration, and all the test has printed. */
  ghost predicate IsCase(c: TestCase, lines: seq<Line>, k: nat) {
    && k < |lines| && Ends(lines[k]) && Mentions(lines[k], (c.suite, c.name))
    && (c.status.Pass? <==> lines[k].e.action == "pass")
    && (c.status.Fail? <==> lines[k].e.action == "fail")
    && (c.status.Skip? <==> lines[k].e.action == "skip")
    && c.durationMs == lines[k].e.elapsedMs
    && c.message == (var text := Printed(lines, k, (c.suite, c.name)); if text == "" then None else Some(text))
  }

  ghost function EndsAt(lines: seq<Line>): nat -> bool {
    (k: nat) => k < |lines| && Ends(lines[k])
  }

  /** The cases after i lines. */
  ghost predicate Told(lines: seq<Line>, i: nat, ks: seq<nat>, finished: seq<TestCase>) {
    && Picks(ks, 0, i, EndsAt(lines)) && |finished| == |ks|
    && (forall j :: 0 <= j < |ks| ==> IsCase(finished[j], lines, ks[j]))
  }

  /** The open tests after i lines. */
  ghost predicate Holds(lines: seq<Line>, i: nat, slots: map<Key, string>)
    requires i <= |lines|
  {
    && (forall key :: key in slots <==> IsOpen(lines, i, key))
    && (forall key :: key in slots ==> slots[key] == Printed(lines, i, key))
  }

  ghost predicate Reads(lines: seq<Line>, i: nat, ks: seq<nat>, st: State)
    requires i <= |lines|
  {
    Told(lines, i, ks, st.finished) && Holds(lines, i, st.slots)
  }

  lemma OpenGrows(lines: seq<Line>, i: nat, key: Key)
    requires i < |lines|
    ensures IsOpen(lines, i + 1, key) <==> if Mentions(lines[i], key) then !Ends(lines[i]) else IsOpen(lines, i, key)
  {
    if !Mentions(lines[i], key) && IsOpen(lines, i, key) {
      var j :| 0 <= j < i && Mentions(lines[j], key) && !Ends(lines[j])
               && forall k :: j < k < i ==> !Mentions(lines[k], key);
      assert forall k :: j < k < i + 1 ==> !Mentions(lines[k], key);
    }
    hide Ends;
  }

  lemma ClosedIsSilent(lines: seq<Line>, i: nat, key: Key)
    requires i <= |lines| && !IsOpen(lines, i, key)
    ensures Printed(lines, i, key) == ""
  {
    if i > 0 {
      OpenGrows(lines, i - 1, key);
      if !Mentions(lines[i - 1], key) {
        ClosedIsSilent(lines, i - 1, key);
      }
      hide IsOpen;
    }
  }

  lemma MentionsOne(line: Line, key: Key)
    requires line.Event? && line.e.test.Some?
    ensures Mentions(line, key) <==> key == KeyOf(line.e)
  {
  }

  lemma PicksAtEnd(ks: seq<nat>, to: nat, test: nat -> bool)
    requires Picks(ks, 0, to, test)
    ensures Picks(if test(to) then ks + [to] else ks, 0, to + 1, test)
  {
    var more := if test(to) then ks + [to] else ks;
    assert forall j :: 0 <= j < |ks| ==> ks[j] in ks;
    assert forall k :: k in ks + [to] <==> k in ks || k == to;
  }

  lemma SlotsAfter(lines: seq<Line>, i: nat, slots: map<Key, string>, more: map<Key, string>, key: Key)
    requires i < |lines| && Holds(lines, i, slots) && forall k :: Mentions(lines[i], k) <==> k == key
    requires more.Keys == if Ends(lines[i]) then slots.Keys - {key} else slots.Keys + {key}
    requires forall k :: k in more && k != key ==> k in slots && more[k] == slots[k]
    requires key in more ==> more[key] == Printed(lines, i + 1, key)
    ensures Holds(lines, i + 1, more)
  {
    hide Mentions, Ends, IsOpen;
    forall k: Key
      ensures IsOpen(lines, i + 1, k) <==> if k == key then !Ends(lines[i]) else IsOpen(lines, i, k)
    {
      OpenGrows(lines, i, k);
    }
  }

  lemma QuietLine(lines: seq<Line>, i: nat, ks: seq<nat>, st: State)
    requires i < |lines| && Reads(lines, i, ks, st) && (lines[i].Event? ==> lines[i].e.test.None?)
    ensures Reads(lines, i + 1, ks, st)
  {
    assert !Ends(lines[i]) && forall key :: !Mentions(lines[i], key);
    hide IsOpen, Mentions, Ends, Told;
    ToldNoMore(lines, i, ks, st.finished);
    forall key ensures IsOpen(lines, i + 1, key) <==> IsOpen(lines, i, key) {
      OpenGrows(lines, i, key);
    }
  }

  lemma ToldNoMore(lines: seq<Line>, i: nat, ks: seq<nat>, finished: seq<TestCase>)
    requires i < |lines| && Told(lines, i, ks, finished) && !Ends(lines[i])
    ensures Told(lines, i + 1, ks, finished)
  {
    hide IsCase, Picks, Ends;
    PicksAtEnd(ks, i, EndsAt(lines));
  }

  /** A line that goes on with its test adds what it prints. */
  lemma OpenLine(lines: seq<Line>, i: nat, ks: seq<nat>, st: State, text: string)
    requires i < |lines| && Reads(lines, i, ks, st) && lines[i].Event? && lines[i].e.test.Some? && !Ends(lines[i])
    requires text == if lines[i].e.action == "output" && lines[i].e.output.Some? then lines[i].e.output.value else ""
    ensures var key := KeyOf(lines[i].e);
            Reads(lines, i + 1, ks, st.(slots := st.slots[key := MessageAt(st.slots, key) + text]))
  {
    var key := KeyOf(lines[i].e);
    ToldNoMore(lines, i, ks, st.finished);
    hide Told, Mentions, Ends, KeyOf, IsOpen;
    forall k: Key ensures Mentions(lines[i], k) <==> k == key { MentionsOne(lines[i], k); }
    if key !in st.slots {
      ClosedIsSilent(lines, i, key);
    }
    var more := st.slots[key := MessageAt(st.slots, key) + text];
    assert Printed(lines, i + 1, key) == Printed(lines, i, key) + text;
    hide Printed;
    SlotsAfter(lines, i, st.slots, more, key);
  }

  lemma ToldOneMore(lines: seq<Line>, i: nat, ks: seq<nat>, finished: seq<TestCase>, c: TestCase)
    requires i < |lines| && Told(lines, i, ks, finished) && Ends(lines[i]) && IsCase(c, lines, i)
    ensures Told(lines, i + 1, ks + [i], finished + [c])
  {
    hide IsCase, Picks, Ends;
    PicksAtEnd(ks, i, EndsAt(lines));
  }

  /** A line that ends its test reports it. */
  lemma EndLine(lines: seq<Line>, i: nat, ks: seq<nat>, st: State, c: TestCase)
    requires i < |lines| && Reads(lines, i, ks, st) && Ends(lines[i]) && IsCase(c, lines, i)
    ensures Reads(lines, i + 1, ks + [i], State(st.slots - {KeyOf(lines[i].e)}, st.finished + [c]))
  {
    var key := KeyOf(lines[i].e);
    ToldOneMore(lines, i, ks, st.finished, c);
    assert lines[i].e.test.Some?;
    hide Told, Mentions, Ends, KeyOf, IsOpen, Printed;
    forall k: Key ensures Mentions(lines[i], k) <==> k == key { MentionsOne(lines[i], k); }
    SlotsAfter(lines, i, st.slots, st.slots - {key}, key);
  }

  lemma EndingCase(lines: seq<Line>, i: nat, ks: seq<nat>, st: State)
    requires i < |lines| && Reads(lines, i, ks, st) && Ends(lines[i])
    ensures var e, key := lines[i].e, KeyOf(lines[i].e);
            EffectOf(e, MessageAt(st.slots, key)).Finish? && IsCase(EffectOf(e, MessageAt(st.slots, key)).c, lines, i)
  {
    var key := KeyOf(lines[i].e);
    if key !in st.slots {
      ClosedIsSilent(lines, i, key);
    }
    hide IsOpen, Picks;
  }

  lemma GoingOn(e: GoEvent, message: string)
    requires e.test.Some? && Readable(Event(e)) && !Ends(Event(e))
    ensures EffectOf(e, message)
         == Keep(message + if e.action == "output" && e.output.Some? then e.output.value else "")
  {
    assert message + "" == message;
  }

  lemma NoLinesRead(lines: seq<Line>)
    ensures Reads(lines, 0, [], START)
  {
  }

  /** After readable lines the machine holds exactly what those lines say. */
  lemma {:induction false} ReadableLinesAreRead(lines: seq<Line>, i: nat, total: nat) returns (ks: seq<nat>)
    requires i <= |lines| <= total && forall j :: 0 <= j < i ==> Readable(lines[j])
    ensures Steps(lines[..i], total).Ok? && Reads(lines, i, ks, Steps(lines[..i], total).value)
  {
    hide Reads, Readable, Ends, EffectOf, KeyOf;
    if i == 0 {
      ks := [];
      NoLinesRead(lines);
      assert lines[..0] == [];
    } else {
      ks := ReadableLinesAreRead(lines, i - 1, total);
      assert lines[..i][..i - 1] == lines[..i - 1];
      var st := Steps(lines[..i - 1], total).value;
      ks := OneMoreLine(lines, i - 1, ks, st, i == total);
    }
  }

  lemma OneMoreLine(lines: seq<Line>, i: nat, ks: seq<nat>, st: State, last: bool) returns (more: seq<nat>)
    requires i < |lines| && Readable(lines[i]) && Reads(lines, i, ks, st)
    ensures LineStep(st, lines[i], last).Ok? && Reads(lines, i + 1, more, LineStep(st, lines[i], last).value)
  {
    var line := lines[i];
    assert !line.Undecodable? && (line.Event? ==> line.e.action != "");
    hide Reads, Ends, EffectOf, KeyOf;
    more := ks;
    if line.Blank? || line.e.test.None? {
      QuietLine(lines, i, ks, st);
    } else if Ends(line) {
      EndingCase(lines, i, ks, st);
      EndLine(lines, i, ks, st, EffectOf(line.e, MessageAt(st.slots, KeyOf(line.e))).c);
      more := ks + [i];
    } else {
      var text := if line.e.action == "output" && line.e.output.Some? then line.e.output.value else "";
      GoingOn(line.e, MessageAt(st.slots, KeyOf(line.e)));
      OpenLine(lines, i, ks, st, text);
    }
  }

  // ----- the whole run -----

  /** Parsing succeeds exactly when every line is readable and every test that was mentioned has ended. */
  lemma ParsesExactlyWhen(lines: seq<Line>)
    ensures Parsed(lines).Ok? <==>
              (forall j :: 0 <= j < |lines| ==> Readable(lines[j])) && forall key :: !IsOpen(lines, |lines|, key)
  {
    hide IsOpen;
    if forall j :: 0 <= j < |lines| ==> Readable(lines[j]) {
      hide Readable;
      AllRead(lines);
    } else {
      var i := FirstUnreadable(lines);
      UnreadableLineFails(lines, i);
    }
  }

  lemma AllRead(lines: seq<Line>)
    requires forall j :: 0 <= j < |lines| ==> Readable(lines[j])
    ensures Parsed(lines).Ok? <==> forall key :: !IsOpen(lines, |lines|, key)
    ensures !Parsed(lines).Ok? ==> Parsed(lines) == Err(Truncated)
  {
    hide Readable, IsOpen, Picks, IsCase, Printed;
    var ks := ReadableLinesAreRead(lines, |lines|, |lines|);
    assert lines[..|lines|] == lines;
    var st := Steps(lines, |lines|).value;
    assert st.slots == map[] <==> forall key :: key !in st.slots;
  }

  lemma FirstUnreadable(lines: seq<Line>) returns (i: nat)
    requires !forall j :: 0 <= j < |lines| ==> Readable(lines[j])
    ensures i < |lines| && !Readable(lines[i]) && forall j :: 0 <= j < i ==> Readable(lines[j])
  {
    hide Readable;
    i := 0;
    while Readable(lines[i])
      invariant i < |lines| && forall j :: 0 <= j < i ==> Readable(lines[j])
      decreases |lines| - i
    {
      i := i + 1;
    }
  }

  /** The first unreadable line decides the error. */
  lemma UnreadableLineFails(lines: seq<Line>, i: nat)
    requires i < |lines| && !Readable(lines[i]) && forall j :: 0 <= j < i ==> Readable(lines[j])
    ensures Parsed(lines) == Err(
              if lines[i].Undecodable? then (if i + 1 == |lines| then Truncated else Malformed)
              else if lines[i].e.action == "" then MissingAction
              else UnknownAction(lines[i].e.action))
  {
    hide Reads;
    var ks := ReadableLinesAreRead(lines, i, |lines|);
    assert lines[..i + 1][..i] == lines[..i];
    ErrorStays(lines, i + 1);
  }

  /** The cases are exactly the ends of tests, in order, each with everything its test has printed. */
  lemma CasesAreEnds(lines: seq<Line>) returns (ks: seq<nat>)
    requires Parsed(lines).Ok?
    ensures Picks(ks, 0, |lines|, EndsAt(lines)) && |Parsed(lines).value| == |ks|
    ensures forall j :: 0 <= j < |ks| ==> IsCase(Parsed(lines).value[j], lines, ks[j])
  {
    hide Readable, IsOpen, Picks, IsCase, Printed;
    ParsesExactlyWhen(lines);
    ks := ReadableLinesAreRead(lines, |lines|, |lines|);
    assert lines[..|lines|] == lines;
  }
}
