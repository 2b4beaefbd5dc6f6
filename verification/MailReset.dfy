/**
 server/mail_server.py: RSET keeps the flag that DATA was accepted. When does every message have a
 DATA of its own, accepted after the last RSET?
 */
module MailReset {
  import opened Options
  import opened MailSession

  /** DATA was accepted after the last RSET. */
  predicate DataSinceReset(log: seq<Mark>) {
    log != [] && (log[|log| - 1].DataAccepted? || (!log[|log| - 1].Reset? && DataSinceReset(log[..|log| - 1])))
  }

  /** Every message was filed with a DATA after the last RSET. */
  predicate OwnData(log: seq<Mark>) {
    log == [] || (OwnData(log[..|log| - 1]) && (log[|log| - 1].Filed? ==> DataSinceReset(log[..|log| - 1])))
  }

  lemma {:induction false} OwnDataAt(log: seq<Mark>, i: nat)
    requires OwnData(log) && i < |log| && log[i].Filed?
    ensures DataSinceReset(log[..i])
  {
    if i < |log| - 1 {
      OwnDataAt(log[..|log| - 1], i);
      assert log[..|log| - 1][..i] == log[..i];
    }
  }

  /** The line takes the way to the RSET trigger: the session is open and outside DATA, and the line is
      not what its state waits for. */
  predicate IsReset(p: Patterns, s: Session, line: string) {
    && s.open && Lower(line) == "rset\r\n" && s.state != DATA
    && !(s.state == HELO && p.helo(line).Some?) && !(s.state == MAIL_FROM && p.mailFrom(line).Some?)
    && !(s.state == RCPT_TO && p.rcptTo(line).Some?)
  }

  /** No RSET arrives while the flag of an accepted DATA is up. */
  ghost predicate CleanReset(p: Patterns, events: seq<Event>) {
    forall k :: 0 <= k < |events| && events[k].Readable? && IsReset(p, Run(p, events[..k]), events[k].line)
                ==> !Run(p, events[..k]).dataStarted
  }

  // ---------- clean runs ----------

  lemma {:induction false} MarkedData(log: seq<Mark>, m: Mark)
    ensures DataSinceReset(log + [m]) == (m.DataAccepted? || (!m.Reset? && DataSinceReset(log)))
    ensures OwnData(log + [m]) == (OwnData(log) && (m.Filed? ==> DataSinceReset(log)))
  {
    assert (log + [m])[..|log|] == log;
  }

  ghost predicate Clean(s: Session) {
    OwnData(s.log) && (s.dataStarted ==> DataSinceReset(s.log))
  }

  lemma {:induction false} DataStaysClean(p: Patterns, s: Session, line: string)
    requires Clean(s) && s.state == DATA
    ensures Clean(ReadData(p, s, line))
  {
    hide OwnData, DataSinceReset, LastEight, FirstFour;
    MarkedData(s.log, DataAccepted);
    if p.rcptTo(line).Some? {
      MarkedData(s.log, Recipient(p.rcptTo(line).value));
    }
    if p.dataEnd(line).Some? {
      MarkedData(s.log, Filed(s.to, s.body + p.dataEnd(line).value));
    }
  }

  lemma {:induction false} ReadStaysClean(p: Patterns, s: Session, line: string)
    requires Clean(s) && s.open && (IsReset(p, s, line) ==> !s.dataStarted)
    ensures Clean(ReadStep(p, s, line))
  {
    hide OwnData, DataSinceReset, ReadData, Lower;
    if s.state == DATA {
      DataStaysClean(p, s, line);
    } else {
      MarkedData(s.log, Reset);
      if s.state == MAIL_FROM && p.mailFrom(line).Some? {
        MarkedData(s.log, Mailed(p.mailFrom(line).value));
      }
      if s.state == RCPT_TO && p.rcptTo(line).Some? {
        MarkedData(s.log, Recipient(p.rcptTo(line).value));
      }
    }
  }

  lemma {:induction false} WriteStaysClean(s: Session)
    requires Clean(s)
    ensures Clean(WriteStep(s))
  {
    hide OwnData, DataSinceReset;
    MarkedData(s.log, Queued);
  }

  lemma {:induction false} RunStaysClean(p: Patterns, events: seq<Event>)
    requires CleanReset(p, events)
    ensures Clean(Run(p, events))
  {
    if events != [] {
      var n := |events| - 1;
      CleanPrefix(p, events, n);
      RunStaysClean(p, events[..n]);
      var s := Run(p, events[..n]);
      hide Clean, ReadStep, WriteStep, IsReset;
      if s.open {
        if events[n].Readable? {
          ReadStaysClean(p, s, events[n].line);
        } else {
          WriteStaysClean(s);
        }
      }
    }
  }

  lemma {:induction false} CleanPrefix(p: Patterns, events: seq<Event>, n: nat)
    requires CleanReset(p, events) && n <= |events|
    ensures CleanReset(p, events[..n])
  {
    forall k | 0 <= k < n ensures events[..n][..k] == events[..k] {
    }
  }

  /** Without such a RSET, every message has a DATA of its own. */
  lemma {:induction false} CleanRunsOwnData(p: Patterns, events: seq<Event>, i: nat)
    requires CleanReset(p, events) && i < |Run(p, events).log| && Run(p, events).log[i].Filed?
    ensures DataSinceReset(Run(p, events).log[..i])
  {
    RunStaysClean(p, events);
    OwnDataAt(Run(p, events).log, i);
  }

  // ---------- after such a RSET ----------

  ghost function RunFrom(p: Patterns, s: Session, events: seq<Event>): Session
    decreases |events|
  {
    if events == [] then s else RunFrom(p, Step(p, s, events[0]), events[1..])
  }

  lemma {:induction false} RunJoin(p: Patterns, a: seq<Event>, b: seq<Event>)
    ensures Run(p, a + b) == RunFrom(p, Run(p, a), b)
    decreases |b|
  {
    if b == [] {
      assert a + b == a;
    } else {
      assert a + b == (a + [b[0]]) + b[1..] && (a + [b[0]])[..|a|] == a;
      RunJoin(p, a + [b[0]], b[1..]);
    }
  }

  /** A write and then a read, if the session stays open in between. */
  lemma {:induction false} RunPair(p: Patterns, s: Session, line: string, rest: seq<Event>)
    requires s.open && WriteStep(s).open
    ensures RunFrom(p, s, [Writable, Readable(line)] + rest) == RunFrom(p, ReadStep(p, WriteStep(s), line), rest)
  {
    var events := [Writable, Readable(line)] + rest;
    assert events[1..] == [Readable(line)] + rest && events[1..][1..] == rest;
  }

  /** MAIL FROM, RCPT TO and the end of a message, each after the reply before it. */
  function Rest(m: string, r: string, e: string): seq<Event> {
    [Writable, Readable(m)] + ([Writable, Readable(r)] + ([Writable, Readable(e)] + []))
  }

  /** The lines are what their states wait for, and none of them is RSET. */
  predicate Matching(p: Patterns, m: string, r: string, e: string) {
    && p.mailFrom(m).Some? && p.rcptTo(r).Some? && p.dataEnd(e).Some?
    && FirstFour(e) != "rcpt" && '.' in LastEight(e)
    && Lower(m) != "rset\r\n" && Lower(r) != "rset\r\n" && Lower(e) != "rset\r\n"
  }

  lemma {:induction false} SenderStep(p: Patterns, s: Session, m: string)
    requires s.open && s.state == HELO_WRITE && p.mailFrom(m).Some?
    ensures WriteStep(s).open
    ensures var a := p.mailFrom(m).value;
      ReadStep(p, WriteStep(s), m) == s.(state := MAIL_FROM_WRITE, from := a, log := s.log + [Mailed(a)])
  {
    hide ReadData, ReadOther;
  }

  lemma {:induction false} RecipientStep(p: Patterns, s: Session, r: string)
    requires s.open && s.state == MAIL_FROM_WRITE && p.rcptTo(r).Some?
    ensures WriteStep(s).open
    ensures var b := p.rcptTo(r).value;
      ReadStep(p, WriteStep(s), r) == s.(state := RCPT_TO_WRITE, to := s.to + [b], log := s.log + [Recipient(b)])
  {
    hide ReadData, ReadOther;
  }

  lemma {:induction false} EndStep(p: Patterns, s: Session, e: string)
    requires s.open && s.state == RCPT_TO_WRITE && s.dataStarted
    requires p.dataEnd(e).Some? && FirstFour(e) != "rcpt" && '.' in LastEight(e)
    ensures ReadStep(p, WriteStep(s), e).log == s.log + [Filed(s.to, s.body + p.dataEnd(e).value)]
  {
    hide LastEight, FirstFour;
  }

  /** From the state a RSET leaves, with the flag still up, the next message is filed without a DATA of
      its own, to the recipients and with the body of both. */
  lemma {:induction false} FiledWithoutData(p: Patterns, s: Session, m: string, r: string, e: string)
    requires s.open && s.state == HELO_WRITE && s.dataStarted && !DataSinceReset(s.log) && Matching(p, m, r, e)
    ensures var before := s.log + [Mailed(p.mailFrom(m).value)] + [Recipient(p.rcptTo(r).value)];
      && RunFrom(p, s, Rest(m, r, e)).log
         == before + [Filed(s.to + [p.rcptTo(r).value], s.body + p.dataEnd(e).value)]
      && !DataSinceReset(before)
  {
    var a, b := p.mailFrom(m).value, p.rcptTo(r).value;
    SenderStep(p, s, m);
    var s1 := s.(state := MAIL_FROM_WRITE, from := a, log := s.log + [Mailed(a)]);
    RecipientStep(p, s1, r);
    var s2 := s1.(state := RCPT_TO_WRITE, to := s1.to + [b], log := s1.log + [Recipient(b)]);
    EndStep(p, s2, e);
    MarkedData(s.log, Mailed(a));
    MarkedData(s1.log, Recipient(b));
    hide ReadStep, LastEight, FirstFour, Lower, DataSinceReset;
    RunPair(p, s, m, [Writable, Readable(r)] + ([Writable, Readable(e)] + []));
    RunPair(p, s1, r, [Writable, Readable(e)] + []);
    RunPair(p, s2, e, []);
  }

  lemma {:induction false} ResetLeavesFlag(p: Patterns, s: Session, line: string)
    requires IsReset(p, s, line)
    ensures ReadStep(p, s, line) == s.(state := HELO_WRITE, log := s.log + [Reset])
  {
    assert "rset\r\n"[0] != "quit\r\n"[0];
    hide Lower;
  }

  /** After any RSET that arrives with the flag up, in whatever state, the next message is filed
      without a DATA of its own. */
  lemma {:induction false} DataOutlivesReset(p: Patterns, events: seq<Event>, line: string, m: string, r: string,
                                             e: string)
    requires IsReset(p, Run(p, events), line) && Run(p, events).dataStarted && Matching(p, m, r, e)
    ensures !OwnData(Run(p, events + [Readable(line)] + Rest(m, r, e)).log)
  {
    var s := Run(p, events);
    var s' := Run(p, events + [Readable(line)]);
    assert (events + [Readable(line)])[..|events|] == events;
    ResetLeavesFlag(p, s, line);
    MarkedData(s.log, Reset);
    hide Run, ReadStep, DataSinceReset, OwnData, Lower, LastEight, FirstFour;
    RunJoin(p, events + [Readable(line)], Rest(m, r, e));
    FiledWithoutData(p, s', m, r, e);
    var a, b := p.mailFrom(m).value, p.rcptTo(r).value;
    MarkedData(s'.log + [Mailed(a)] + [Recipient(b)], Filed(s'.to + [b], s'.body + p.dataEnd(e).value));
  }

  lemma {:induction false} CleanWithRest(p: Patterns, events: seq<Event>, m: string, r: string, e: string)
    requires CleanReset(p, events) && Matching(p, m, r, e)
    ensures CleanReset(p, events + Rest(m, r, e))
  {
    var all, n := events + Rest(m, r, e), |events|;
    assert forall k :: n <= k < |all| ==> all[k] == Rest(m, r, e)[k - n];
    forall k | 0 <= k < |all| && all[k].Readable? && IsReset(p, Run(p, all[..k]), all[k].line)
      ensures !Run(p, all[..k]).dataStarted
    {
      assert all[k] == events[k] && all[..k] == events[..k];
    }
  }

  /** A run is free of such a RSET exactly if, from every point of it, going on with MAIL FROM, RCPT TO and
      the end of a message files every message with a DATA of its own. */
  lemma {:induction false} OwnDataExactly(p: Patterns, events: seq<Event>, m: string, r: string, e: string)
    requires Matching(p, m, r, e)
    ensures CleanReset(p, events)
            <==> forall k :: 0 <= k <= |events| ==> OwnData(Run(p, events[..k] + Rest(m, r, e)).log)
  {
    hide Run, IsReset, OwnData, Lower, LastEight, FirstFour, Matching;
    if CleanReset(p, events) {
      forall k | 0 <= k <= |events| ensures OwnData(Run(p, events[..k] + Rest(m, r, e)).log) {
        CleanPrefix(p, events, k);
        CleanWithRest(p, events[..k], m, r, e);
        RunStaysClean(p, events[..k] + Rest(m, r, e));
      }
    } else {
      var k :| 0 <= k < |events| && events[k].Readable? && IsReset(p, Run(p, events[..k]), events[k].line)
               && Run(p, events[..k]).dataStarted;
      DataOutlivesReset(p, events[..k], events[k].line, m, r, e);
      assert events[..k + 1] == events[..k] + [Readable(events[k].line)];
    }
  }

  // ---------- a run from the start ----------

  /** A session up to an accepted DATA. */
  function Opening(h: string, m: string, r: string, d: string): seq<Event> {
    [Writable, Readable(h)] + ([Writable, Readable(m)] + ([Writable, Readable(r)] + ([Writable, Readable(d)] + [])))
  }

  lemma {:induction false} HeloStep(p: Patterns, h: string)
    requires p.helo(h).Some?
    ensures var s := ReadStep(p, WriteStep(START), h);
      WriteStep(START).open && s.state == HELO_WRITE && s.open && !s.dataStarted
  {
    hide ReadData, ReadOther;
  }

  lemma {:induction false} DataStep(p: Patterns, s: Session, d: string)
    requires s.open && s.state == RCPT_TO_WRITE && !s.dataStarted && FirstFour(d) == "data" && p.dataStart(d).Some?
    ensures var s' := ReadStep(p, WriteStep(s), d);
      WriteStep(s).open && s'.state == DATA_WRITE && s'.dataStarted && s'.open
  {
    assert "data"[0] != "rcpt"[0];
    hide LastEight, FirstFour;
  }

  /** The flag is up in a run from the start, and RSET is then accepted. */
  lemma {:induction false} FlagGoesUp(p: Patterns, h: string, m: string, r: string, d: string)
    requires p.helo(h).Some? && p.mailFrom(m).Some? && p.rcptTo(r).Some? && p.dataStart(d).Some?
    requires FirstFour(d) == "data"
    ensures var s := Run(p, Opening(h, m, r, d));
      s.state == DATA_WRITE && s.dataStarted && s.open
  {
    hide ReadStep, WriteStep, FirstFour, Run, RunFrom;
    var s0 := ReadStep(p, WriteStep(START), h);
    HeloStep(p, h);
    SenderStep(p, s0, m);
    var s1 := ReadStep(p, WriteStep(s0), m);
    RecipientStep(p, s1, r);
    var s2 := ReadStep(p, WriteStep(s1), r);
    DataStep(p, s2, d);
    FromStart(p, Opening(h, m, r, d));
    RunPair(p, START, h, [Writable, Readable(m)] + ([Writable, Readable(r)] + ([Writable, Readable(d)] + [])));
    RunPair(p, s0, m, [Writable, Readable(r)] + ([Writable, Readable(d)] + []));
    RunPair(p, s1, r, [Writable, Readable(d)] + []);
    RunPair(p, s2, d, []);
    NothingLeft(p, ReadStep(p, WriteStep(s2), d));
  }

  lemma {:induction false} MoreRecipients(p: Patterns, s: Session, r: string)
    requires s.open && s.state == DATA_WRITE && s.dataStarted && FirstFour(r) == "rcpt" && p.rcptTo(r).Some?
    ensures var s' := ReadStep(p, WriteStep(s), r);
      WriteStep(s).open && s'.state == RCPT_TO_WRITE && s'.dataStarted && s'.open
  {
    hide LastEight, FirstFour;
  }

  /** The flag is still up after one more recipient, and RSET is accepted there too. */
  lemma {:induction false} FlagStaysUp(p: Patterns, h: string, m: string, r: string, d: string)
    requires p.helo(h).Some? && p.mailFrom(m).Some? && p.rcptTo(r).Some? && p.dataStart(d).Some?
    requires FirstFour(d) == "data" && FirstFour(r) == "rcpt"
    ensures var s := Run(p, Opening(h, m, r, d) + [Writable, Readable(r)]);
      s.state == RCPT_TO_WRITE && s.dataStarted && s.open
  {
    var s := Run(p, Opening(h, m, r, d));
    hide ReadStep, WriteStep, FirstFour, Run, RunFrom, Opening;
    FlagGoesUp(p, h, m, r, d);
    RunJoin(p, Opening(h, m, r, d), [Writable, Readable(r)]);
    MoreRecipients(p, s, r);
    assert [Writable, Readable(r)] == [Writable, Readable(r)] + [];
    RunPair(p, s, r, []);
    NothingLeft(p, ReadStep(p, WriteStep(s), r));
  }

  lemma {:induction false} FromStart(p: Patterns, events: seq<Event>)
    ensures Run(p, events) == RunFrom(p, START, events)
  {
    RunJoin(p, [], events);
    assert [] + events == events;
  }

  lemma {:induction false} NothingLeft(p: Patterns, s: Session)
    ensures RunFrom(p, s, []) == s
  {
  }

  lemma {:induction false} LowerSame(s: string)
    requires forall i :: 0 <= i < |s| ==> !('A' <= s[i] <= 'Z')
    ensures Lower(s) == s
  {
    if s != "" {
      LowerSame(s[1..]);
      assert [s[0]] + s[1..] == s;
    }
  }

  /** What the patterns of state.py make of four lines. */
  const FOUR_LINES := Patterns(
    s => if s == "helo d\r\n" then Some(("helo", "d")) else None,
    s => if s == "mail from:<a@b>\r\n" then Some(Some("a@b")) else None,
    s => if s == "rcpt to:<c@d>\r\n" then Some(Some("c@d")) else None,
    s => if s == "data\r\n" then Some(None) else None,
    s => if s == ".\r\n" then Some("") else None)

  lemma {:induction false} FourLinesMatch(m: string, r: string, e: string)
    requires m == "mail from:<a@b>\r\n" && r == "rcpt to:<c@d>\r\n" && e == ".\r\n"
    ensures Matching(FOUR_LINES, m, r, e)
  {
    LowerSame(m);
    LowerSame(r);
    LowerSame(e);
    assert m[0] != "rset\r\n"[0] && r[1] != "rset\r\n"[1] && e[0] != "rset\r\n"[0];
    assert e[0] in LastEight(e) && FirstFour(e) == Lower(e) == e;
  }

  lemma {:induction false} FourLinesOpen(d: string)
    requires d == "data\r\n"
    ensures FirstFour(d) == "data" && Lower("rset\r\n") == "rset\r\n"
  {
    LowerSame("data");
    LowerSame("rset\r\n");
    assert d[..4] == "data";
  }

  /** A message filed without a DATA after the RSET, in a run from the start. */
  lemma {:induction false} ResetRun(h: string, m: string, r: string, d: string, e: string)
    requires h == "helo d\r\n" && m == "mail from:<a@b>\r\n" && r == "rcpt to:<c@d>\r\n"
    requires d == "data\r\n" && e == ".\r\n"
    ensures !OwnData(Run(FOUR_LINES, Opening(h, m, r, d) + [Readable("rset\r\n")] + Rest(m, r, e)).log)
  {
    FourLinesMatch(m, r, e);
    FourLinesOpen(d);
    hide Run, Lower, OwnData, FirstFour, LastEight;
    FlagGoesUp(FOUR_LINES, h, m, r, d);
    DataOutlivesReset(FOUR_LINES, Opening(h, m, r, d), "rset\r\n", m, r, e);
  }
}
