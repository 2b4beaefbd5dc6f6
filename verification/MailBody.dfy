/** server/mail_server.py: which lines make up the body of a filed message. */
module MailBody {
  import opened Options
  import opened MailSession
  import opened MailReset

  /** The line ends a message. */
  predicate Files(p: Patterns, s: Session, line: string) {
    && s.open && s.state == DATA && s.dataStarted
    && FirstFour(line) != "rcpt" && '.' in LastEight(line) && p.dataEnd(line).Some?
  }

  /** A line of a message that is neither text, nor its end, nor a further RCPT TO or DATA: one that starts
      like a command without being one, or has a dot near its end without ending the message. */
  predicate Dropped(p: Patterns, s: Session, line: string) {
    && s.open && s.state == DATA && s.dataStarted
    && if FirstFour(line) == "rcpt" then p.rcptTo(line).None?
       else if '.' in LastEight(line) then p.dataEnd(line).None?
       else FirstFour(line) == "data" && p.dataStart(line).None?
  }

  /** Those are the lines within a message that leave no trace. */
  lemma {:induction false} DroppedExactly(p: Patterns, s: Session, line: string)
    requires s.open && s.state == DATA && s.dataStarted && line != ""
    ensures Dropped(p, s, line) <==> ReadStep(p, s, line) == s
  {
    hide FirstFour, LastEight;
    if ReadStep(p, s, line) == s {
      assert |s.body + line| != |s.body|;
      assert |s.to + [None]| != |s.to| && |s.log + [DataAccepted]| != |s.log|;
    }
  }

  /** What the line adds to the body, when it does not end the message. */
  function Added(p: Patterns, s: Session, line: string): string {
    if !s.open || s.state != DATA || FirstFour(line) == "rcpt" || ('.' in LastEight(line) && s.dataStarted) then ""
    else if FirstFour(line) == "data" then
      if p.dataStart(line).Some? && p.dataStart(line).value.Some? then p.dataStart(line).value.value else ""
    else if s.dataStarted then line
    else ""
  }

  /** Since the last message was filed: its body, what has been added since, the same with the dropped
      lines in their places, and how many characters these have. */
  datatype Tally = Tally(earlier: string, kept: string, sent: string, lost: nat)

  function Tallied(p: Patterns, events: seq<Event>): Tally {
    if events == [] then Tally("", "", "", 0)
    else
      var init, e := events[..|events| - 1], events[|events| - 1];
      if e.Readable? then Next(p, Run(p, init), Tallied(p, init), e.line) else Tallied(p, init)
  }

  function Next(p: Patterns, s: Session, t: Tally, line: string): Tally {
    if Files(p, s, line) then Tally(t.earlier + t.kept + p.dataEnd(line).value, "", "", 0)
    else if Dropped(p, s, line) then t.(sent := t.sent + line, lost := t.lost + |line|)
    else t.(kept := t.kept + Added(p, s, line), sent := t.sent + Added(p, s, line))
  }

  /** The body of the last filed message. */
  function LastBody(log: seq<Mark>): string {
    if log == [] then ""
    else if log[|log| - 1].Filed? then log[|log| - 1].body
    else LastBody(log[..|log| - 1])
  }

  lemma {:induction false} MarkedBody(log: seq<Mark>, m: Mark)
    ensures LastBody(log + [m]) == if m.Filed? then m.body else LastBody(log)
  {
    assert (log + [m])[..|log|] == log;
  }

  /** What reading a line does to the body and to the filed messages. */
  ghost predicate BodyRead(p: Patterns, s: Session, line: string, s': Session) {
    if Files(p, s, line) then
      var body := s.body + p.dataEnd(line).value;
      s'.body == body && s'.log == s.log + [Filed(s.to, body)] && LastBody(s'.log) == body
    else s'.body == s.body + Added(p, s, line) && LastBody(s'.log) == LastBody(s.log)
  }

  /** A trigger leaves the body, the recipients and the log as they are. */
  lemma {:induction false} FiredKeeps()
    ensures forall s: Session, t: Trigger ::
              Fired(s, t).body == s.body && Fired(s, t).log == s.log && Fired(s, t).to == s.to
  {
  }

  lemma {:induction false} DataBody(p: Patterns, s: Session, line: string)
    requires s.open && s.state == DATA
    ensures BodyRead(p, s, line, ReadData(p, s, line))
    ensures Dropped(p, s, line) ==> ReadData(p, s, line) == s && !Files(p, s, line) && Added(p, s, line) == ""
  {
    hide FirstFour, LastEight, LastBody, Fired;
    FiredKeeps();
    assert s.body + "" == s.body;
    MarkedBody(s.log, DataAccepted);
    if p.rcptTo(line).Some? {
      MarkedBody(s.log, Recipient(p.rcptTo(line).value));
    }
    if p.dataEnd(line).Some? {
      MarkedBody(s.log, Filed(s.to, s.body + p.dataEnd(line).value));
    }
  }

  lemma {:induction false} ReadBody(p: Patterns, s: Session, line: string)
    requires s.open
    ensures BodyRead(p, s, line, ReadStep(p, s, line))
    ensures Dropped(p, s, line) ==> !Files(p, s, line) && Added(p, s, line) == ""
  {
    hide FirstFour, LastEight, Lower, LastBody, ReadData;
    if s.state == DATA {
      DataBody(p, s, line);
    } else {
      assert s.body + "" == s.body;
      MarkedBody(s.log, Reset);
      if p.mailFrom(line).Some? {
        MarkedBody(s.log, Mailed(p.mailFrom(line).value));
      }
      if p.rcptTo(line).Some? {
        MarkedBody(s.log, Recipient(p.rcptTo(line).value));
      }
    }
  }

  lemma {:induction false} WriteBody(s: Session)
    ensures WriteStep(s).body == s.body && LastBody(WriteStep(s).log) == LastBody(s.log)
  {
    hide LastBody, Fired;
    FiredKeeps();
    MarkedBody(s.log, Queued);
  }

  ghost predicate Counted(s: Session, t: Tally) {
    && s.body == t.earlier + t.kept && t.earlier == LastBody(s.log)
    && |t.sent| == |t.kept| + t.lost && (t.lost == 0 ==> t.sent == t.kept)
  }

  lemma {:induction false} ReadCounted(p: Patterns, s: Session, t: Tally, line: string)
    requires Counted(s, t) && s.open
    ensures Counted(ReadStep(p, s, line), Next(p, s, t, line))
  {
    hide FirstFour, LastEight, Added, Files, Dropped, ReadStep, LastBody;
    ReadBody(p, s, line);
    var added := Added(p, s, line);
    assert t.earlier + t.kept + added == t.earlier + (t.kept + added);
  }

  lemma {:induction false} RunCounted(p: Patterns, events: seq<Event>)
    ensures Counted(Run(p, events), Tallied(p, events))
  {
    hide ReadStep, WriteStep, Next, Counted;
    if events == [] {
      StartCounted();
    } else {
      var init, e := events[..|events| - 1], events[|events| - 1];
      var s, t := Run(p, init), Tallied(p, init);
      RunCounted(p, init);
      if !s.open {
        if e.Readable? {
          ClosedCounts(p, s, t, e.line);
        }
      } else if e.Readable? {
        ReadCounted(p, s, t, e.line);
      } else {
        WriteCounted(s, t);
      }
    }
  }

  lemma StartCounted()
    ensures Counted(START, Tally("", "", "", 0))
  {
  }

  lemma {:induction false} WriteCounted(s: Session, t: Tally)
    requires Counted(s, t)
    ensures Counted(WriteStep(s), t)
  {
    hide WriteStep, LastBody;
    WriteBody(s);
  }

  lemma {:induction false} ClosedCounts(p: Patterns, s: Session, t: Tally, line: string)
    requires !s.open && Counted(s, t)
    ensures Counted(s, Next(p, s, t, line))
  {
    assert t.kept + "" == t.kept && t.sent + "" == t.sent;
  }

  // ---------- the promises ----------

  /** A message is filed with all text since the session began, the end of the dialogue or a RSET
      notwithstanding. It has just the lines sent for it if none of them was dropped and the messages
      before it were empty; and of these two conditions, where one holds the other is needed. */
  lemma {:induction false} OwnBodyExactly(p: Patterns, events: seq<Event>, line: string)
    requires Files(p, Run(p, events), line)
    ensures var s, t, end := Run(p, events), Tallied(p, events), p.dataEnd(line).value;
      var body := t.earlier + t.kept + end;
      && t.earlier == LastBody(s.log)
      && Run(p, events + [Readable(line)]).log == s.log + [Filed(s.to, body)]
      && (t.earlier == "" ==> (body == t.sent + end <==> t.lost == 0))
      && (t.lost == 0 ==> (body == t.sent + end <==> t.earlier == ""))
  {
    RunCounted(p, events);
    var s, t, end := Run(p, events), Tallied(p, events), p.dataEnd(line).value;
    assert (events + [Readable(line)])[..|events|] == events;
    hide ReadStep, LastBody, FirstFour, LastEight;
    ReadBody(p, s, line);
    assert |t.earlier + t.kept + end| == |t.earlier| + |t.kept| + |end|;
    if t.earlier == "" {
      assert t.earlier + t.kept == t.kept;
    }
  }

  /** Every body begins with the bodies filed before it. */
  lemma {:induction false} BodiesGrow(p: Patterns, events: seq<Event>, i: nat, j: nat)
    requires i < j < |Run(p, events).log| && Run(p, events).log[i].Filed? && Run(p, events).log[j].Filed?
    ensures Run(p, events).log[i].body <= Run(p, events).log[j].body
  {
    RunGrows(p, events);
  }

  ghost predicate Growing(log: seq<Mark>, body: string) {
    && (forall i :: 0 <= i < |log| && log[i].Filed? ==> log[i].body <= body)
    && (forall i, j :: 0 <= i < j < |log| && log[i].Filed? && log[j].Filed? ==> log[i].body <= log[j].body)
  }

  /** One step adds to the body, and marks nothing, or a message filed with it, or something else. */
  ghost predicate Grows(s: Session, s': Session) {
    && s.body <= s'.body
    && (s'.log == s.log || (|s'.log| == |s.log| + 1 && s'.log[..|s.log|] == s.log
                            && (s'.log[|s.log|].Filed? ==> s'.log[|s.log|].body == s'.body)))
  }

  lemma {:induction false} StepGrows(p: Patterns, s: Session, e: Event)
    ensures Grows(s, Step(p, s, e))
  {
    hide FirstFour, LastEight, Lower, ReadStep, WriteStep;
    if s.open {
      if e.Readable? {
        ReadGrows(p, s, e.line);
      } else {
        WriteGrows(s);
      }
    }
  }

  lemma {:induction false} WriteGrows(s: Session)
    ensures Grows(s, WriteStep(s))
  {
    hide Fired;
    FiredKeeps();
  }

  lemma {:induction false} ReadGrows(p: Patterns, s: Session, line: string)
    ensures Grows(s, ReadStep(p, s, line))
  {
    hide FirstFour, LastEight, ReadData, ReadOther;
    DataGrows(p, s, line);
    OtherGrows(s, line);
  }

  lemma {:induction false} OtherGrows(s: Session, line: string)
    ensures Grows(s, ReadOther(s, line))
  {
    hide Lower, Fired;
    FiredKeeps();
  }

  lemma {:induction false} DataGrows(p: Patterns, s: Session, line: string)
    ensures Grows(s, ReadData(p, s, line))
  {
    hide FirstFour, LastEight, Fired;
    FiredKeeps();
  }

  lemma {:induction false} GrowsOn(s: Session, s': Session)
    requires Growing(s.log, s.body) && Grows(s, s')
    ensures Growing(s'.log, s'.body)
  {
    assert forall i :: 0 <= i < |s.log| ==> s'.log[i] == s'.log[..|s.log|][i];
  }

  lemma {:induction false} RunGrows(p: Patterns, events: seq<Event>)
    ensures Growing(Run(p, events).log, Run(p, events).body)
  {
    if events != [] {
      var init := events[..|events| - 1];
      RunGrows(p, init);
      hide Growing, Grows, Step;
      StepGrows(p, Run(p, init), events[|events| - 1]);
      GrowsOn(Run(p, init), Run(p, events));
    }
  }

  // ---------- two sessions from the start ----------

  /** Each line is answered before the next one. */
  function Exchange(lines: seq<string>): seq<Event> {
    if lines == [] then [] else Exchange(lines[..|lines| - 1]) + [Writable, Readable(lines[|lines| - 1])]
  }

  ghost predicate Is(s: Session, state: State, body: string, flag: bool) {
    s.open && s.state == state && s.body == body && s.dataStarted == flag
  }

  lemma {:induction false} Exchanged(p: Patterns, lines: seq<string>, line: string)
    requires Run(p, Exchange(lines)).open && WriteStep(Run(p, Exchange(lines))).open
    ensures Run(p, Exchange(lines + [line])) == ReadStep(p, WriteStep(Run(p, Exchange(lines))), line)
  {
    assert (lines + [line])[..|lines|] == lines;
    var events := Exchange(lines);
    assert (events + [Writable, Readable(line)])[..|events| + 1] == events + [Writable];
    assert (events + [Writable])[..|events|] == events;
    hide ReadStep, WriteStep;
    assert Run(p, events + [Writable]) == WriteStep(Run(p, events));
  }

  /** A command that its state waits for, once the reply before it has been written. */
  lemma {:induction false} Command(p: Patterns, s: Session, line: string, body: string, flag: bool)
    requires s.open && s.body == body && s.dataStarted == flag
    ensures s.state == GREETING_WRITE && p.helo(line).Some? ==>
              WriteStep(s).open && Is(ReadStep(p, WriteStep(s), line), HELO_WRITE, body, flag)
    ensures s.state == HELO_WRITE && p.mailFrom(line).Some? ==>
              WriteStep(s).open && Is(ReadStep(p, WriteStep(s), line), MAIL_FROM_WRITE, body, flag)
    ensures s.state == MAIL_FROM_WRITE && p.rcptTo(line).Some? ==>
              WriteStep(s).open && Is(ReadStep(p, WriteStep(s), line), RCPT_TO_WRITE, body, flag)
  {
    hide ReadOther, ReadData;
  }

  /** RSET after a message. */
  lemma {:induction false} ResetCommand(p: Patterns, s: Session, line: string, body: string, flag: bool)
    requires Is(s, DATA_END_WRITE, body, flag) && Lower(line) == "rset\r\n"
    ensures WriteStep(s).open && Is(ReadStep(p, WriteStep(s), line), HELO_WRITE, body, flag)
  {
    hide Lower, ReadData;
    assert "rset\r\n"[0] != "quit\r\n"[0];
  }

  /** The state in which lines belong to a message. */
  lemma {:induction false} InData(p: Patterns, s: Session, line: string)
    requires s.open && (s.state == RCPT_TO_WRITE || s.state == DATA_WRITE || s.state == DATA)
    ensures WriteStep(s) == s.(state := DATA)
    ensures ReadStep(p, WriteStep(s), line) == ReadData(p, s.(state := DATA), line)
  {
    hide ReadData;
  }

  /** DATA, the text of a message, and its end. */
  lemma {:induction false} Message(p: Patterns, s: Session, line: string, body: string, flag: bool)
    requires s.open && s.body == body && s.dataStarted == flag
    requires s.state == RCPT_TO_WRITE || s.state == DATA_WRITE || s.state == DATA
    requires FirstFour(line) != "rcpt"
    ensures WriteStep(s).open
    ensures !flag && FirstFour(line) == "data" && p.dataStart(line) == Some(None) ==>
              Is(ReadStep(p, WriteStep(s), line), DATA_WRITE, body, true)
    ensures flag && FirstFour(line) != "data" && '.' !in LastEight(line) ==>
              Is(ReadStep(p, WriteStep(s), line), DATA, body + line, true)
    ensures flag && '.' in LastEight(line) && p.dataEnd(line) == None ==>
              Is(ReadStep(p, WriteStep(s), line), DATA, body, true)
    ensures flag && '.' in LastEight(line) && p.dataEnd(line) == Some("") ==>
              && Is(ReadStep(p, WriteStep(s), line), DATA_END_WRITE, body, false)
              && ReadStep(p, WriteStep(s), line).log == s.log + [Filed(s.to, body)]
  {
    hide LastEight, FirstFour, ReadStep, WriteStep;
    InData(p, s, line);
    assert body + "" == body;
  }

  /** The lines of a session that files a message: its commands, and an end that adds nothing to the body. */
  ghost predicate Dialogue(p: Patterns, h: string, m: string, r: string, d: string, e: string) {
    && p.helo(h).Some? && p.mailFrom(m).Some? && p.rcptTo(r).Some?
    && FirstFour(d) == "data" && FirstFour(d) != "rcpt" && p.dataStart(d) == Some(None)
    && FirstFour(e) != "rcpt" && '.' in LastEight(e) && p.dataEnd(e) == Some("")
  }

  /** After HELO, MAIL FROM, RCPT TO and DATA. */
  lemma {:induction false} Opened(p: Patterns, h: string, m: string, r: string, d: string, e: string)
    requires Dialogue(p, h, m, r, d, e)
    ensures Is(Run(p, Exchange([h] + [m] + [r] + [d])), DATA_WRITE, "", true)
  {
    hide Run, Exchange, ReadStep, WriteStep, FirstFour, LastEight, Lower;
    Empty(p);
    Command(p, START, h, "", false);
    Exchanged(p, [], h);
    assert [] + [h] == [h];
    Command(p, Run(p, Exchange([h])), m, "", false);
    Exchanged(p, [h], m);
    Command(p, Run(p, Exchange([h] + [m])), r, "", false);
    Exchanged(p, [h] + [m], r);
    Message(p, Run(p, Exchange([h] + [m] + [r])), d, "", false);
    Exchanged(p, [h] + [m] + [r], d);
  }

  lemma Empty(p: Patterns)
    ensures Run(p, Exchange([])) == START
  {
  }

  /** A line with a dot near its end, which is not the end of the message, is missing from it. */
  lemma {:induction false} DottedLineDropped(p: Patterns, h: string, m: string, r: string, d: string, t: string,
                                             e: string)
    requires Dialogue(p, h, m, r, d, e) && FirstFour(t) != "rcpt" && '.' in LastEight(t) && p.dataEnd(t) == None
    ensures var log := Run(p, Exchange([h] + [m] + [r] + [d] + [t] + [e])).log;
      log != [] && log[|log| - 1].Filed? && log[|log| - 1].body == ""
  {
    hide Run, Exchange, ReadStep, WriteStep, FirstFour, LastEight, Lower;
    Opened(p, h, m, r, d, e);
    var l := [h] + [m] + [r] + [d];
    Message(p, Run(p, Exchange(l)), t, "", true);
    Exchanged(p, l, t);
    Message(p, Run(p, Exchange(l + [t])), e, "", true);
    Exchanged(p, l + [t], e);
  }

  /** After a message with the text `t`, RSET, and a new MAIL FROM and RCPT TO. */
  lemma {:induction false} Again(p: Patterns, h: string, m: string, r: string, d: string, t: string, e: string,
                                 x: string)
    requires Dialogue(p, h, m, r, d, e) && Lower(x) == "rset\r\n"
    requires FirstFour(t) != "rcpt" && FirstFour(t) != "data" && '.' !in LastEight(t)
    ensures Is(Run(p, Exchange([h] + [m] + [r] + [d] + [t] + [e] + [x] + [m] + [r])), RCPT_TO_WRITE, t, false)
  {
    hide Run, Exchange, ReadStep, WriteStep, FirstFour, LastEight, Lower;
    Opened(p, h, m, r, d, e);
    var l := [h] + [m] + [r] + [d];
    assert "" + t == t;
    Message(p, Run(p, Exchange(l)), t, "", true);
    Exchanged(p, l, t);
    Message(p, Run(p, Exchange(l + [t])), e, t, true);
    Exchanged(p, l + [t], e);
    ResetCommand(p, Run(p, Exchange(l + [t] + [e])), x, t, false);
    Exchanged(p, l + [t] + [e], x);
    Command(p, Run(p, Exchange(l + [t] + [e] + [x])), m, t, false);
    Exchanged(p, l + [t] + [e] + [x], m);
    Command(p, Run(p, Exchange(l + [t] + [e] + [x] + [m])), r, t, false);
    Exchanged(p, l + [t] + [e] + [x] + [m], r);
  }

  /** A second message, for which no text is sent, is filed with the text of the first. */
  lemma {:induction false} BodyCarriedOver(p: Patterns, h: string, m: string, r: string, d: string, t: string,
                                           e: string, x: string)
    requires Dialogue(p, h, m, r, d, e) && Lower(x) == "rset\r\n"
    requires FirstFour(t) != "rcpt" && FirstFour(t) != "data" && '.' !in LastEight(t)
    ensures var log := Run(p, Exchange([h] + [m] + [r] + [d] + [t] + [e] + [x] + [m] + [r] + [d] + [e])).log;
      log != [] && log[|log| - 1].Filed? && log[|log| - 1].body == t
  {
    hide Run, Exchange, ReadStep, WriteStep, FirstFour, LastEight, Lower;
    Again(p, h, m, r, d, t, e, x);
    var l := [h] + [m] + [r] + [d] + [t] + [e] + [x] + [m] + [r];
    Message(p, Run(p, Exchange(l)), d, t, false);
    Exchanged(p, l, d);
    Message(p, Run(p, Exchange(l + [d])), e, t, true);
    Exchanged(p, l + [d], e);
  }

  lemma {:induction false} PlainLine(line: string)
    requires 4 <= |line| <= 8 && (forall i :: 0 <= i < |line| ==> !('A' <= line[i] <= 'Z'))
    ensures FirstFour(line) == line[..4] && LastEight(line) == line
  {
    LowerSame(line[..4]);
  }

  /** Lines for the two sessions above. */
  lemma {:induction false} FourLinesDialogue(h: string, m: string, r: string, d: string, e: string, dotted: string,
                                             plain: string)
    requires h == "helo d\r\n" && m == "mail from:<a@b>\r\n" && r == "rcpt to:<c@d>\r\n"
    requires d == "data\r\n" && e == ".\r\n" && dotted == "a.b\r\n" && plain == "hi\r\n"
    ensures Dialogue(FOUR_LINES, h, m, r, d, e) && Lower("rset\r\n") == "rset\r\n"
    ensures FirstFour(dotted) != "rcpt" && '.' in LastEight(dotted) && FOUR_LINES.dataEnd(dotted) == None
    ensures FirstFour(plain) != "rcpt" && FirstFour(plain) != "data" && '.' !in LastEight(plain)
  {
    hide FirstFour, LastEight, Lower;
    FourLinesMatch(m, r, e);
    FourLinesOpen(d);
    PlainLine(dotted);
    PlainLine(plain);
    assert dotted[1] == '.' && FirstFour(dotted)[0] == 'a' && FirstFour(plain)[0] == 'h' && FirstFour(d)[0] == 'd';
  }
}
