/** server/mail_server.py: where the commands of a session lead, state by state. */
module MailDialogue {
  import opened Options
  import opened MailSession
  import MailReset

  // ---------- the strings the session looks at ----------

  /** Letter case does not matter. */
  lemma {:induction false} LowerIs(line: string, word: string)
    requires |line| == |word|
    requires forall i :: 0 <= i < |word| ==>
               !('A' <= word[i] <= 'Z')
               && (line[i] == word[i] || ('a' <= word[i] <= 'z' && line[i] as int + 32 == word[i] as int))
    ensures Lower(line) == word
  {
    if line != "" {
      LowerIs(line[1..], word[1..]);
      assert [word[0]] + word[1..] == word;
    }
  }

  lemma {:induction false} LowerAt(line: string, i: nat)
    requires i < |line|
    ensures Lower(line)[i] == if 'A' <= line[i] <= 'Z' then (line[i] as int + 32) as char else line[i]
  {
    if i > 0 {
      LowerAt(line[1..], i - 1);
    }
  }

  /** The line starts with these four letters, large or small. */
  lemma {:induction false} FirstFourIs(line: string)
    ensures FirstFour(line) == "rcpt" <==>
            |line| >= 4 && line[0] in "rR" && line[1] in "cC" && line[2] in "pP" && line[3] in "tT"
    ensures FirstFour(line) == "data" <==>
            |line| >= 4 && line[0] in "dD" && line[1] in "aA" && line[2] in "tT" && line[3] in "aA"
  {
    if |line| >= 4 {
      var s := line[..4];
      hide Lower;
      LowerAt(s, 0);
      LowerAt(s, 1);
      LowerAt(s, 2);
      LowerAt(s, 3);
      var r, d := "rcpt", "data";
      var l := Lower(s);
      assert l == r <==> l[0] == r[0] && l[1] == r[1] && l[2] == r[2] && l[3] == r[3];
      assert l == d <==> l[0] == d[0] && l[1] == d[1] && l[2] == d[2] && l[3] == d[3];
    }
  }

  /** A dot among the last eight characters. */
  lemma {:induction false} DotNearEnd(line: string)
    ensures '.' in LastEight(line) <==> exists i :: 0 <= i < |line| && |line| - 8 <= i && line[i] == '.'
  {
    var s := LastEight(line);
    assert forall j :: 0 <= j < |s| ==> s[j] == line[|line| - |s| + j];
    if i :| 0 <= i < |line| && |line| - 8 <= i && line[i] == '.' {
      assert s[i - (|line| - |s|)] == '.';
    }
  }

  // ---------- one step ----------

  /** Where each reply leads. */
  lemma {:induction false} WriteLeads(s: Session)
    ensures s.state == GREETING_WRITE ==> WriteStep(s) == s.(state := HELO)
    ensures s.state == HELO_WRITE ==> WriteStep(s) == s.(state := MAIL_FROM)
    ensures s.state == MAIL_FROM_WRITE ==> WriteStep(s) == s.(state := RCPT_TO)
    ensures s.state == RCPT_TO_WRITE ==> WriteStep(s) == s.(state := DATA)
    ensures s.state == DATA_WRITE ==> WriteStep(s) == s.(state := DATA)
    ensures s.state == DATA_END_WRITE ==> WriteStep(s) == s.(state := QUIT, log := s.log + [Queued])
    ensures s.state == QUIT_WRITE ==> WriteStep(s) == s.(state := FINISH, open := false)
    ensures s.state in {HELO, MAIL_FROM, RCPT_TO, DATA, QUIT, FINISH} ==> WriteStep(s) == s
  {
  }

  /** Where HELO, MAIL FROM and RCPT TO lead. */
  lemma {:induction false} CommandLeads(p: Patterns, s: Session, line: string)
    ensures s.state == HELO && p.helo(line).Some? ==>
              var (command, domain) := p.helo(line).value;
              ReadStep(p, s, line)
              == s.(state := HELO_WRITE, heloCommand := command, domain := if domain == "" then "unknown" else domain)
    ensures s.state == MAIL_FROM && p.mailFrom(line).Some? ==>
              var a := p.mailFrom(line).value;
              ReadStep(p, s, line) == s.(state := MAIL_FROM_WRITE, from := a, log := s.log + [Mailed(a)])
    ensures s.state == RCPT_TO && p.rcptTo(line).Some? ==>
              var a := p.rcptTo(line).value;
              ReadStep(p, s, line) == s.(state := RCPT_TO_WRITE, to := s.to + [a], log := s.log + [Recipient(a)])
  {
    hide ReadData, ReadOther;
  }

  /** The line is not what its state waits for. */
  ghost predicate Unawaited(p: Patterns, s: Session, line: string) {
    && s.state != DATA && !(s.state == HELO && p.helo(line).Some?)
    && !(s.state == MAIL_FROM && p.mailFrom(line).Some?) && !(s.state == RCPT_TO && p.rcptTo(line).Some?)
  }

  /** QUIT and RSET from any such state; any other line changes nothing. */
  lemma {:induction false} OtherLeads(p: Patterns, s: Session, line: string)
    requires Unawaited(p, s, line)
    ensures Lower(line) == "quit\r\n" ==> ReadStep(p, s, line) == s.(state := QUIT_WRITE)
    ensures Lower(line) == "rset\r\n" ==> ReadStep(p, s, line) == s.(state := HELO_WRITE, log := s.log + [Reset])
    ensures Lower(line) != "quit\r\n" && Lower(line) != "rset\r\n" ==> ReadStep(p, s, line) == s
  {
    hide Lower, ReadData;
    assert "rset\r\n"[0] != "quit\r\n"[0];
  }

  /** Within DATA: a further recipient, the end of a message, the start of its text, or a line of it. */
  lemma {:induction false} DataLeads(p: Patterns, s: Session, line: string)
    requires s.state == DATA
    ensures FirstFour(line) == "rcpt" ==>
              ReadStep(p, s, line)
              == if p.rcptTo(line).None? then s
                 else
                   var a := p.rcptTo(line).value;
                   s.(state := RCPT_TO_WRITE, to := s.to + [a], log := s.log + [Recipient(a)])
    ensures FirstFour(line) != "rcpt" && '.' in LastEight(line) && s.dataStarted ==>
              ReadStep(p, s, line)
              == if p.dataEnd(line).None? then s
                 else
                   var body := s.body + p.dataEnd(line).value;
                   s.(state := DATA_END_WRITE, body := body, dataStarted := false, log := s.log + [Filed(s.to, body)])
    ensures FirstFour(line) == "data" && FirstFour(line) != "rcpt" && !('.' in LastEight(line) && s.dataStarted) ==>
              ReadStep(p, s, line)
              == if p.dataStart(line).None? then s
                 else
                   var text := if p.dataStart(line).value.Some? then p.dataStart(line).value.value else "";
                   s.(state := DATA_WRITE, body := s.body + text, dataStarted := true, log := s.log + [DataAccepted])
    ensures FirstFour(line) != "data" && FirstFour(line) != "rcpt" && !('.' in LastEight(line) && s.dataStarted) ==>
              ReadStep(p, s, line) == if s.dataStarted then s.(body := s.body + line) else s
  {
    hide FirstFour, LastEight;
  }

  lemma {:induction false} OneMore(p: Patterns, events: seq<Event>, e: Event)
    ensures Run(p, events + [e]) == Step(p, Run(p, events), e)
  {
    assert (events + [e])[..|events|] == events;
  }

  // ---------- QUIT and RSET ----------

  /** In every run, QUIT and one write close the session, except within DATA; nothing is filed on the way. */
  lemma {:induction false} QuitCloses(p: Patterns, events: seq<Event>, line: string)
    requires Run(p, events).open && Unawaited(p, Run(p, events), line)
    requires |line| == 6 && line[0] in "qQ" && line[1] in "uU" && line[2] in "iI" && line[3] in "tT"
    requires line[4] == '\r' && line[5] == '\n'
    ensures Run(p, events + [Readable(line)]) == Run(p, events).(state := QUIT_WRITE)
    ensures Run(p, events + [Readable(line)] + [Writable]) == Run(p, events).(state := FINISH, open := false)
  {
    LowerIs(line, "quit\r\n");
    hide Run, ReadStep, WriteStep, Lower, Unawaited;
    OneMore(p, events, Readable(line));
    OtherLeads(p, Run(p, events), line);
    OneMore(p, events + [Readable(line)], Writable);
    WriteLeads(Run(p, events + [Readable(line)]));
  }

  /** In every run, RSET and one write lead back to MAIL FROM, except within DATA. */
  lemma {:induction false} ResetRestarts(p: Patterns, events: seq<Event>, line: string)
    requires Run(p, events).open && Unawaited(p, Run(p, events), line)
    requires |line| == 6 && line[0] in "rR" && line[1] in "sS" && line[2] in "eE" && line[3] in "tT"
    requires line[4] == '\r' && line[5] == '\n'
    ensures var s := Run(p, events);
      && Run(p, events + [Readable(line)]) == s.(state := HELO_WRITE, log := s.log + [Reset])
      && Run(p, events + [Readable(line)] + [Writable]) == s.(state := MAIL_FROM, log := s.log + [Reset])
  {
    LowerIs(line, "rset\r\n");
    hide Run, ReadStep, WriteStep, Lower, Unawaited;
    OneMore(p, events, Readable(line));
    OtherLeads(p, Run(p, events), line);
    OneMore(p, events + [Readable(line)], Writable);
    WriteLeads(Run(p, events + [Readable(line)]));
  }

  // ---------- a whole session ----------

  /** The lines are what their states wait for; `t` is a line of text and `e` ends the message. */
  ghost predicate Matching(p: Patterns, h: string, m: string, r: string, d: string, t: string, e: string, q: string) {
    && p.helo(h).Some? && p.mailFrom(m).Some? && p.rcptTo(r).Some? && p.dataStart(d).Some? && p.dataEnd(e).Some?
    && FirstFour(d) == "data" && FirstFour(d) != "rcpt"
    && FirstFour(t) != "data" && FirstFour(t) != "rcpt" && '.' !in LastEight(t)
    && FirstFour(e) != "rcpt" && '.' in LastEight(e)
    && Lower(q) == "quit\r\n"
  }

  function DialogueEvents(h: string, m: string, r: string, d: string, t: string, e: string, q: string): seq<Event> {
    [Writable, Readable(h), Writable, Readable(m), Writable, Readable(r), Writable, Readable(d), Writable,
     Readable(t), Readable(e), Writable, Readable(q), Writable]
  }

  /** A run goes through the states of `ss` if every step leads from one to the next. */
  lemma {:induction false} Course(p: Patterns, events: seq<Event>, ss: seq<Session>, k: nat)
    requires |ss| == |events| + 1 && ss[0] == START && k <= |events|
    requires forall i :: 0 <= i < |events| ==> Step(p, ss[i], events[i]) == ss[i + 1]
    ensures Run(p, events[..k]) == ss[k]
  {
    hide Step;
    if k == 0 {
      assert events[..0] == [];
    } else {
      Course(p, events, ss, k - 1);
      assert events[..k] == events[..k - 1] + [events[k - 1]];
      OneMore(p, events[..k - 1], events[k - 1]);
    }
  }

  /** The session up to DATA, and from there to its end. */
  ghost function ToData(p: Patterns, h: string, m: string, r: string): seq<Session>
    requires p.helo(h).Some? && p.mailFrom(m).Some? && p.rcptTo(r).Some?
  {
    var (c, w) := p.helo(h).value;
    var n := if w == "" then "unknown" else w;
    var a, b := p.mailFrom(m).value, p.rcptTo(r).value;
    [Session(GREETING_WRITE, "", "", Some(""), [], "", false, true, false, []),
     Session(HELO, "", "", Some(""), [], "", false, true, false, []),
     Session(HELO_WRITE, c, n, Some(""), [], "", false, true, false, []),
     Session(MAIL_FROM, c, n, Some(""), [], "", false, true, false, []),
     Session(MAIL_FROM_WRITE, c, n, a, [], "", false, true, false, [Mailed(a)]),
     Session(RCPT_TO, c, n, a, [], "", false, true, false, [Mailed(a)]),
     Session(RCPT_TO_WRITE, c, n, a, [b], "", false, true, false, [Mailed(a), Recipient(b)]),
     Session(DATA, c, n, a, [b], "", false, true, false, [Mailed(a), Recipient(b)])]
  }

  ghost function FromData(p: Patterns, s: Session, x: string, t: string, g: string): seq<Session> {
    var log := s.log + [DataAccepted];
    var filed := log + [Filed(s.to, x + t + g)];
    [s.(state := DATA_WRITE, body := x, dataStarted := true, log := log),
     s.(state := DATA, body := x, dataStarted := true, log := log),
     s.(state := DATA, body := x + t, dataStarted := true, log := log),
     s.(state := DATA_END_WRITE, body := x + t + g, log := filed),
     s.(state := QUIT, body := x + t + g, log := filed + [Queued]),
     s.(state := QUIT_WRITE, body := x + t + g, log := filed + [Queued]),
     s.(state := FINISH, open := false, body := x + t + g, log := filed + [Queued])]
  }

  lemma {:induction false} ToDataSteps(p: Patterns, h: string, m: string, r: string)
    requires p.helo(h).Some? && p.mailFrom(m).Some? && p.rcptTo(r).Some?
    ensures var ss, events := ToData(p, h, m, r),
                              [Writable, Readable(h), Writable, Readable(m), Writable, Readable(r), Writable];
      ss[0] == START && forall i :: 0 <= i < 7 ==> Step(p, ss[i], events[i]) == ss[i + 1]
  {
    hide ReadStep, WriteStep;
    var ss := ToData(p, h, m, r);
    WriteLeads(ss[0]);
    CommandLeads(p, ss[1], h);
    WriteLeads(ss[2]);
    CommandLeads(p, ss[3], m);
    WriteLeads(ss[4]);
    CommandLeads(p, ss[5], r);
    WriteLeads(ss[6]);
    var a, b := p.mailFrom(m).value, p.rcptTo(r).value;
    assert [] + [Mailed(a)] == [Mailed(a)] && [Mailed(a)] + [Recipient(b)] == [Mailed(a), Recipient(b)];
    assert [] + [b] == [b];
  }

  lemma {:induction false} FromDataSteps(p: Patterns, s: Session, d: string, t: string, e: string, q: string)
    requires s.state == DATA && s.open && !s.dataStarted && s.body == ""
    requires p.dataStart(d).Some? && p.dataEnd(e).Some? && FirstFour(d) == "data" && FirstFour(d) != "rcpt"
    requires FirstFour(t) != "data" && FirstFour(t) != "rcpt" && '.' !in LastEight(t)
    requires FirstFour(e) != "rcpt" && '.' in LastEight(e) && Lower(q) == "quit\r\n"
    ensures var ss := FromData(p, s, DataText(p, d), t, p.dataEnd(e).value);
      && Step(p, s, Readable(d)) == ss[0] && Step(p, ss[0], Writable) == ss[1]
      && Step(p, ss[1], Readable(t)) == ss[2] && Step(p, ss[2], Readable(e)) == ss[3]
      && Step(p, ss[3], Writable) == ss[4] && Step(p, ss[4], Readable(q)) == ss[5]
      && Step(p, ss[5], Writable) == ss[6]
  {
    hide ReadStep, WriteStep, FirstFour, LastEight, Lower, Unawaited;
    var ss := FromData(p, s, DataText(p, d), t, p.dataEnd(e).value);
    assert "" + DataText(p, d) == DataText(p, d);
    DataLeads(p, s, d);
    WriteLeads(ss[0]);
    DataLeads(p, ss[1], t);
    DataLeads(p, ss[2], e);
    WriteLeads(ss[3]);
    AfterMessage(p, ss[4], q);
    WriteLeads(ss[5]);
  }

  lemma AfterMessage(p: Patterns, s: Session, q: string)
    requires s.state == QUIT && Lower(q) == "quit\r\n"
    ensures ReadStep(p, s, q) == s.(state := QUIT_WRITE)
  {
    hide Lower, ReadStep;
    OtherLeads(p, s, q);
  }

  /** What DATA itself adds to the body. */
  function DataText(p: Patterns, d: string): string
    requires p.dataStart(d).Some?
  {
    if p.dataStart(d).value.Some? then p.dataStart(d).value.value else ""
  }

  ghost function Sessions(p: Patterns, h: string, m: string, r: string, d: string, t: string, e: string): seq<Session>
    requires p.helo(h).Some? && p.mailFrom(m).Some? && p.rcptTo(r).Some? && p.dataStart(d).Some? && p.dataEnd(e).Some?
  {
    var front := ToData(p, h, m, r);
    front + FromData(p, front[7], DataText(p, d), t, p.dataEnd(e).value)
  }

  lemma {:induction false} SessionSteps(p: Patterns, h: string, m: string, r: string, d: string, t: string, e: string,
                                        q: string, i: nat)
    requires Matching(p, h, m, r, d, t, e, q) && i < 14
    ensures var ss := Sessions(p, h, m, r, d, t, e);
      |ss| == 15 && ss[0] == START && Step(p, ss[i], DialogueEvents(h, m, r, d, t, e, q)[i]) == ss[i + 1]
  {
    hide Step, FirstFour, LastEight, Lower;
    var front := ToData(p, h, m, r);
    ToDataSteps(p, h, m, r);
    FromDataSteps(p, front[7], d, t, e, q);
  }

  lemma {:induction false} SessionsReached(p: Patterns, h: string, m: string, r: string, d: string, t: string,
                                           e: string, q: string, k: nat)
    requires Matching(p, h, m, r, d, t, e, q) && k <= 14
    ensures var ss := Sessions(p, h, m, r, d, t, e);
      |ss| == 15 && |DialogueEvents(h, m, r, d, t, e, q)| == 14
      && Run(p, DialogueEvents(h, m, r, d, t, e, q)[..k]) == ss[k]
  {
    hide Run, Step, FirstFour, LastEight, Lower, Sessions;
    var events, ss := DialogueEvents(h, m, r, d, t, e, q), Sessions(p, h, m, r, d, t, e);
    SessionSteps(p, h, m, r, d, t, e, q, 0);
    forall i | 0 <= i < |events| ensures Step(p, ss[i], events[i]) == ss[i + 1] {
      SessionSteps(p, h, m, r, d, t, e, q, i);
    }
    Course(p, events, ss, k);
  }

  lemma {:induction false} SessionStates(p: Patterns, h: string, m: string, r: string, d: string, t: string, e: string,
                                         k: nat)
    requires p.helo(h).Some? && p.mailFrom(m).Some? && p.rcptTo(r).Some? && p.dataStart(d).Some? && p.dataEnd(e).Some?
    requires k <= 14
    ensures var s := Sessions(p, h, m, r, d, t, e)[k];
      && s.state == [GREETING_WRITE, HELO, HELO_WRITE, MAIL_FROM, MAIL_FROM_WRITE, RCPT_TO, RCPT_TO_WRITE, DATA,
                     DATA_WRITE, DATA, DATA, DATA_END_WRITE, QUIT, QUIT_WRITE, FINISH][k]
      && (s.open <==> k < 14) && !s.fault
  {
    var front := ToData(p, h, m, r);
    var back := FromData(p, front[7], DataText(p, d), t, p.dataEnd(e).value);
    FrontStates(p, h, m, r);
    BackStates(p, front[7], DataText(p, d), t, p.dataEnd(e).value);
    hide ToData, FromData, DataText;
    if k < 8 {
      assert Sessions(p, h, m, r, d, t, e)[k] == front[k];
    } else {
      assert Sessions(p, h, m, r, d, t, e)[k] == back[k - 8];
    }
  }

  lemma {:induction false} FrontStates(p: Patterns, h: string, m: string, r: string)
    requires p.helo(h).Some? && p.mailFrom(m).Some? && p.rcptTo(r).Some?
    ensures var ss := ToData(p, h, m, r);
      && ss[0].state == GREETING_WRITE && ss[1].state == HELO && ss[2].state == HELO_WRITE && ss[3].state == MAIL_FROM
      && ss[4].state == MAIL_FROM_WRITE && ss[5].state == RCPT_TO && ss[6].state == RCPT_TO_WRITE && ss[7].state == DATA
      && forall i :: 0 <= i < 8 ==> ss[i].open && !ss[i].fault
  {
  }

  lemma {:induction false} BackStates(p: Patterns, s: Session, x: string, t: string, g: string)
    requires s.open && !s.fault
    ensures var ss := FromData(p, s, x, t, g);
      && ss[0].state == DATA_WRITE && ss[1].state == DATA && ss[2].state == DATA && ss[3].state == DATA_END_WRITE
      && ss[4].state == QUIT && ss[5].state == QUIT_WRITE && ss[6].state == FINISH
      && (forall i :: 0 <= i < 6 ==> ss[i].open) && !ss[6].open && forall i :: 0 <= i < 7 ==> !ss[i].fault
  {
  }

  /** Greeting, HELO, MAIL FROM, RCPT TO, DATA, a line of text, the end of the message and QUIT, with a reply to
      each command: every state on the way, one message filed, one reported, and the session closed. */
  lemma {:induction false} WholeDialogue(p: Patterns, h: string, m: string, r: string, d: string, t: string, e: string,
                                         q: string, k: nat)
    requires Matching(p, h, m, r, d, t, e, q) && k <= 14
    ensures var s := Run(p, DialogueEvents(h, m, r, d, t, e, q)[..k]);
      && s.state == [GREETING_WRITE, HELO, HELO_WRITE, MAIL_FROM, MAIL_FROM_WRITE, RCPT_TO, RCPT_TO_WRITE, DATA,
                     DATA_WRITE, DATA, DATA, DATA_END_WRITE, QUIT, QUIT_WRITE, FINISH][k]
      && (s.open <==> k < 14) && !s.fault
    ensures var s := Run(p, DialogueEvents(h, m, r, d, t, e, q));
      var (command, domain) := p.helo(h).value;
      var a, b, text := p.mailFrom(m).value, p.rcptTo(r).value, p.dataStart(d).value;
      && s.heloCommand == command && s.domain == (if domain == "" then "unknown" else domain) && s.from == a
      && s.log == [Mailed(a), Recipient(b), DataAccepted,
                   Filed([b], (if text.Some? then text.value else "") + t + p.dataEnd(e).value), Queued]
  {
    hide Run, FirstFour, LastEight, Lower, DialogueEvents;
    SessionsReached(p, h, m, r, d, t, e, q, k);
    SessionStates(p, h, m, r, d, t, e, k);
    SessionsReached(p, h, m, r, d, t, e, q, 14);
    assert DialogueEvents(h, m, r, d, t, e, q)[..14] == DialogueEvents(h, m, r, d, t, e, q);
  }

  /** There are such lines. */
  lemma {:induction false} LinesMatch(h: string, m: string, r: string, d: string, t: string, e: string, q: string)
    requires h == "helo d\r\n" && m == "mail from:<a@b>\r\n" && r == "rcpt to:<c@d>\r\n" && d == "data\r\n"
    requires t == "hi\r\n" && e == ".\r\n" && q == "QUIT\r\n"
    ensures Matching(MailReset.FOUR_LINES, h, m, r, d, t, e, q)
  {
    hide FirstFour, LastEight, Lower;
    FirstFourIs(d);
    FirstFourIs(t);
    FirstFourIs(e);
    DotNearEnd(t);
    DotNearEnd(e);
    assert e[0] == '.';
    LowerIs(q, "quit\r\n");
  }
}
