/**
 server/mail_server.py with server/SMTP_FSM.py: one mail session. The loop may give a session read
 and write steps in any order, so a run is any sequence of the two.
 */
module MailSession {
  import opened Options

  datatype State = HELO | HELO_WRITE | GREETING_WRITE | MAIL_FROM | MAIL_FROM_WRITE | RCPT_TO | RCPT_TO_WRITE
    | DATA | DATA_WRITE | DATA_END_WRITE | QUIT | QUIT_WRITE | FINISH

  datatype Trigger = Helo | MailFrom | RcptTo | DataStart | DataAdditional | DataEnd | Quit
    | GreetingWrite | HeloWrite | MailFromWrite | RcptToWrite | AnotherRecipient | DataStartWrite | DataEndWrite
    | QuitWrite | Rset | RsetWrite

  /** The transition table: from where a trigger may fire, and where it leads. */
  function Fire(t: Trigger, s: State): Option<State> {
    match t
    case Helo => if s == HELO then Some(HELO_WRITE) else None
    case MailFrom => if s == MAIL_FROM then Some(MAIL_FROM_WRITE) else None
    case RcptTo => if s == RCPT_TO then Some(RCPT_TO_WRITE) else None
    case DataStart => if s == DATA then Some(DATA_WRITE) else None
    case DataAdditional => if s == DATA then Some(DATA) else None
    case DataEnd => if s == DATA then Some(DATA_END_WRITE) else None
    case Quit => Some(QUIT_WRITE)
    case GreetingWrite => if s == GREETING_WRITE then Some(HELO) else None
    case HeloWrite => if s == HELO_WRITE then Some(MAIL_FROM) else None
    case MailFromWrite => if s == MAIL_FROM_WRITE then Some(RCPT_TO) else None
    case RcptToWrite => if s == RCPT_TO_WRITE then Some(DATA) else None
    case AnotherRecipient => if s == DATA then Some(RCPT_TO_WRITE) else None
    case DataStartWrite => if s == DATA_WRITE then Some(DATA) else None
    case DataEndWrite => if s == DATA_END_WRITE then Some(QUIT) else None
    case QuitWrite => if s == QUIT_WRITE then Some(FINISH) else None
    case Rset => Some(HELO_WRITE)
    case RsetWrite => Some(HELO)
  }

  /** An address, none for the empty one. */
  type Address = Option<string>

  /** The regular expressions of state.py, each giving its groups if it matches. */
  datatype Patterns = Patterns(
    helo: string -> Option<(string, string)>,
    mailFrom: string -> Option<Address>,
    rcptTo: string -> Option<Address>,
    dataStart: string -> Option<Option<string>>,
    dataEnd: string -> Option<string>)

  /** What the session accepted and did, in order. */
  datatype Mark = Mailed(address: Address) | Recipient(address: Address) | DataAccepted | Reset
    | Filed(to: seq<Address>, body: string) | Queued

  /** The fields of a client, its mail and its machine. `fault` records a trigger the table forbids. */
  datatype Session = Session(
    state: State, heloCommand: string, domain: string, from: Address, to: seq<Address>, body: string,
    dataStarted: bool, open: bool, fault: bool, log: seq<Mark>)

  const START := Session(GREETING_WRITE, "", "", Some(""), [], "", false, true, false, [])

  function Fired(s: Session, t: Trigger): Session {
    var to := Fire(t, s.state);
    if to.None? then s.(fault := true) else s.(state := to.value)
  }

  function Marked(s: Session, m: Mark): Session {
    s.(log := s.log + [m])
  }

  // ---------- strings ----------

  function LowerChar(c: char): char {
    if 'A' <= c <= 'Z' then (c as int + 32) as char else c
  }

  function Lower(s: string): (r: string)
    ensures |r| == |s|
  {
    if s == "" then "" else [LowerChar(s[0])] + Lower(s[1..])
  }

  function FirstFour(s: string): string {
    Lower(if |s| < 4 then s else s[..4])
  }

  function LastEight(s: string): string {
    if |s| < 8 then s else s[|s| - 8..]
  }

  // ---------- the steps ----------

  function ReadData(p: Patterns, s: Session, line: string): Session {
    if FirstFour(line) == "rcpt" then
      var r := p.rcptTo(line);
      if r.None? then s
      else Fired(Marked(s.(to := s.to + [r.value]), Recipient(r.value)), AnotherRecipient)
    else if '.' in LastEight(line) && s.dataStarted then
      var r := p.dataEnd(line);
      if r.None? then s
      else
        var done := Fired(s.(body := s.body + r.value), DataEnd);
        Marked(done, Filed(done.to, done.body)).(dataStarted := false)
    else if FirstFour(line) == "data" then
      var r := p.dataStart(line);
      if r.None? then s
      else
        var text := if r.value.Some? then r.value.value else "";
        Marked(Fired(s.(body := s.body + text), DataStart), DataAccepted).(dataStarted := true)
    else if s.dataStarted then Fired(s.(body := s.body + line), DataAdditional)
    else s
  }

  function ReadOther(s: Session, line: string): Session {
    if Lower(line) == "quit\r\n" then Fired(s, Quit)
    else if Lower(line) == "rset\r\n" then Marked(Fired(s, Rset), Reset)
    else s
  }

  /** handle_client_read, on the line that was received */
  function ReadStep(p: Patterns, s: Session, line: string): Session {
    if s.state == HELO && p.helo(line).Some? then
      var (command, domain) := p.helo(line).value;
      Fired(s.(heloCommand := command, domain := if domain == "" then "unknown" else domain), Helo)
    else if s.state == MAIL_FROM && p.mailFrom(line).Some? then
      var a := p.mailFrom(line).value;
      Fired(Marked(s.(from := a), Mailed(a)), MailFrom)
    else if s.state == RCPT_TO && p.rcptTo(line).Some? then
      var a := p.rcptTo(line).value;
      Fired(Marked(s.(to := s.to + [a]), Recipient(a)), RcptTo)
    else if s.state == DATA then ReadData(p, s, line)
    else ReadOther(s, line)
  }

  /** handle_client_write */
  function WriteStep(s: Session): Session {
    match s.state
    case GREETING_WRITE => Fired(s, GreetingWrite)
    case HELO_WRITE => Fired(s, HeloWrite)
    case MAIL_FROM_WRITE => Fired(s, MailFromWrite)
    case RCPT_TO_WRITE => Fired(s, RcptToWrite)
    case DATA_WRITE => Fired(s, DataStartWrite)
    case DATA_END_WRITE => Marked(Fired(s, DataEndWrite), Queued)
    case QUIT_WRITE => Fired(s, QuitWrite).(open := false)
    case _ => s
  }

  /** A readable socket brings a line, a writable one nothing. */
  datatype Event = Readable(line: string) | Writable

  function Step(p: Patterns, s: Session, e: Event): Session {
    if !s.open then s else if e.Readable? then ReadStep(p, s, e.line) else WriteStep(s)
  }

  function Run(p: Patterns, events: seq<Event>): Session {
    if events == [] then START else Step(p, Run(p, events[..|events| - 1]), events[|events| - 1])
  }

  // ---------- what the log says ----------

  /** DATA was accepted after the last completed message. */
  predicate DataPending(log: seq<Mark>) {
    log != [] && (log[|log| - 1].DataAccepted? || (!log[|log| - 1].Filed? && DataPending(log[..|log| - 1])))
  }

  /** MAIL FROM was accepted after the last RSET. */
  predicate SenderKnown(log: seq<Mark>) {
    log != [] && (log[|log| - 1].Mailed? || (!log[|log| - 1].Reset? && SenderKnown(log[..|log| - 1])))
  }

  /** RCPT was accepted after the last RSET. */
  predicate RecipientKnown(log: seq<Mark>) {
    log != [] && (log[|log| - 1].Recipient? || (!log[|log| - 1].Reset? && RecipientKnown(log[..|log| - 1])))
  }

  /** All accepted RCPT addresses, in order. */
  function Recipients(log: seq<Mark>): seq<Address> {
    if log == [] then []
    else
      var r, m := Recipients(log[..|log| - 1]), log[|log| - 1];
      if m.Recipient? then r + [m.address] else r
  }

  function Count(log: seq<Mark>, queued: bool): nat {
    if log == [] then 0
    else
      var m := log[|log| - 1];
      Count(log[..|log| - 1], queued) + if (if queued then m.Queued? else m.Filed?) then 1 else 0
  }

  /** A message may be filed after this log. */
  predicate CanFile(log: seq<Mark>, to: seq<Address>) {
    DataPending(log) && SenderKnown(log) && RecipientKnown(log) && to == Recipients(log)
  }

  /** Every message was filed when it could be. */
  predicate FiledProperly(log: seq<Mark>) {
    log == [] || (FiledProperly(log[..|log| - 1])
                  && (log[|log| - 1].Filed? ==> CanFile(log[..|log| - 1], log[|log| - 1].to)))
  }

  lemma {:induction false} FiledAt(log: seq<Mark>, i: nat)
    requires FiledProperly(log) && i < |log| && log[i].Filed?
    ensures CanFile(log[..i], log[i].to)
  {
    if i < |log| - 1 {
      FiledAt(log[..|log| - 1], i);
      assert log[..|log| - 1][..i] == log[..i];
    }
  }

  ghost predicate Inv(s: Session) {
    && !s.fault && s.to == Recipients(s.log) && s.dataStarted == DataPending(s.log)
    && (s.state in {MAIL_FROM_WRITE, RCPT_TO, RCPT_TO_WRITE, DATA, DATA_WRITE} ==> SenderKnown(s.log))
    && (s.state in {RCPT_TO_WRITE, DATA, DATA_WRITE} ==> RecipientKnown(s.log))
    && FiledProperly(s.log)
    && Count(s.log, true) + (if s.state == DATA_END_WRITE then 1 else 0) <= Count(s.log, false)
    && (s.open <==> s.state != FINISH)
  }

  lemma {:induction false} MarkedInv(log: seq<Mark>, m: Mark)
    ensures var all := log + [m];
      && Recipients(all) == Recipients(log) + (if m.Recipient? then [m.address] else [])
      && DataPending(all) == (m.DataAccepted? || (!m.Filed? && DataPending(log)))
      && SenderKnown(all) == (m.Mailed? || (!m.Reset? && SenderKnown(log)))
      && RecipientKnown(all) == (m.Recipient? || (!m.Reset? && RecipientKnown(log)))
      && FiledProperly(all) == (FiledProperly(log) && (m.Filed? ==> CanFile(log, m.to)))
      && Count(all, true) == Count(log, true) + (if m.Queued? then 1 else 0)
      && Count(all, false) == Count(log, false) + (if m.Filed? then 1 else 0)
  {
    assert (log + [m])[..|log|] == log;
  }

  lemma {:induction false} ReadKeeps(p: Patterns, s: Session, line: string)
    requires Inv(s) && s.open
    ensures Inv(ReadStep(p, s, line))
  {
    hide Recipients, DataPending, SenderKnown, RecipientKnown, FiledProperly, Count, Lower, LastEight, FirstFour;
    if s.state == DATA {
      DataKeeps(p, s, line);
    } else {
      MarkedInv(s.log, Reset);
      if s.state == MAIL_FROM && p.mailFrom(line).Some? {
        MarkedInv(s.log, Mailed(p.mailFrom(line).value));
      }
      if s.state == RCPT_TO && p.rcptTo(line).Some? {
        MarkedInv(s.log, Recipient(p.rcptTo(line).value));
      }
    }
  }

  lemma {:induction false} DataKeeps(p: Patterns, s: Session, line: string)
    requires Inv(s) && s.open && s.state == DATA
    ensures Inv(ReadData(p, s, line))
  {
    hide Recipients, DataPending, SenderKnown, RecipientKnown, FiledProperly, Count, Lower, LastEight, FirstFour;
    MarkedInv(s.log, DataAccepted);
    if p.rcptTo(line).Some? {
      MarkedInv(s.log, Recipient(p.rcptTo(line).value));
    }
    if p.dataEnd(line).Some? {
      MarkedInv(s.log, Filed(s.to, s.body + p.dataEnd(line).value));
    }
  }

  lemma {:induction false} WriteKeeps(s: Session)
    requires Inv(s) && s.open
    ensures Inv(WriteStep(s))
  {
    hide Recipients, DataPending, SenderKnown, RecipientKnown, FiledProperly, Count;
    MarkedInv(s.log, Queued);
  }

  lemma {:induction false} RunKeeps(p: Patterns, events: seq<Event>)
    ensures Inv(Run(p, events))
  {
    if events != [] {
      RunKeeps(p, events[..|events| - 1]);
      var s := Run(p, events[..|events| - 1]);
      hide Inv, ReadStep, WriteStep;
      assert s.open || Step(p, s, events[|events| - 1]) == s;
      if s.open {
        if events[|events| - 1].Readable? {
          ReadKeeps(p, s, events[|events| - 1].line);
        } else {
          WriteKeeps(s);
        }
      }
    }
  }

  // ---------- the promises ----------

  /** In every run, whatever the order of reads and writes, no trigger is fired from a state that
      forbids it. */
  lemma {:induction false} NoForbiddenTrigger(p: Patterns, events: seq<Event>)
    ensures !Run(p, events).fault
  {
    RunKeeps(p, events);
  }

  /** A message is filed only after DATA was accepted for it, and MAIL FROM and RCPT were accepted
      since the last RSET; it goes to every address accepted so far. */
  lemma {:induction false} FiledOnlyWhenReady(p: Patterns, events: seq<Event>, i: nat)
    requires i < |Run(p, events).log| && Run(p, events).log[i].Filed?
    ensures var log := Run(p, events).log;
      CanFile(log[..i], log[i].to)
  {
    RunKeeps(p, events);
    FiledAt(Run(p, events).log, i);
  }

  /** The recipients are all accepted addresses in order: nothing ever clears them. */
  lemma {:induction false} RecipientsInOrder(p: Patterns, events: seq<Event>)
    ensures Run(p, events).to == Recipients(Run(p, events).log)
  {
    RunKeeps(p, events);
  }

  /** No message is reported as queued that was not filed. */
  lemma {:induction false} QueuedWasFiled(p: Patterns, events: seq<Event>)
    ensures Count(Run(p, events).log, true) <= Count(Run(p, events).log, false)
  {
    RunKeeps(p, events);
  }
}
