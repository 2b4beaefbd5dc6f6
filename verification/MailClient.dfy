/** server/mail_server.py: the two handlers, updating the fields of a client in place. */
module MailClient {
  import opened Options
  import opened MailSession
  import MailDialogue

  class Client {
    var state: State
    var heloCommand: string
    var domain: string
    var from: Address
    var to: seq<Address>
    var body: string
    var dataStarted: bool
    var open: bool
    var log: seq<Mark>

    constructor ()
      ensures AsSession() == START
    {
      state, heloCommand, domain, from, to := GREETING_WRITE, "", "", Some(""), [];
      body, dataStarted, open, log := "", false, true, [];
    }

    function AsSession(): Session
      reads this
    {
      Session(state, heloCommand, domain, from, to, body, dataStarted, open, false, log)
    }

    /** A trigger of the machine; the library raises an error unless the table allows it. */
    method Trigger(t: Trigger)
      requires Fire(t, state).Some?
      modifies `state
      ensures state == Fire(t, old(state)).value
    {
      state := Fire(t, state).value;
    }

    /** Mail.to_file */
    method ToFile()
      modifies `log
      ensures log == old(log) + [Filed(to, body)]
    {
      log := log + [Filed(to, body)];
    }

    method HandleData(p: Patterns, line: string)
      requires state == DATA
      modifies this
      ensures AsSession() == ReadData(p, old(AsSession()), line)
    {
      hide FirstFour, LastEight;
      var first := FirstFour(line);
      if first == "rcpt" {
        var r := p.rcptTo(line);
        if r.Some? {
          to, log := to + [r.value], log + [Recipient(r.value)];
          Trigger(AnotherRecipient);
        }
      } else if '.' in LastEight(line) && dataStarted {
        var r := p.dataEnd(line);
        if r.Some? {
          if r.value != "" {
            body := body + r.value;
          }
          assert body == old(body) + r.value;
          Trigger(DataEnd);
          ToFile();
          dataStarted := false;
        }
      } else if first == "data" {
        var r := p.dataStart(line);
        if r.Some? {
          if r.value.Some? && r.value.value != "" {
            body := body + r.value.value;
          }
          assert body == old(body) + if r.value.Some? then r.value.value else "";
          Trigger(DataStart);
          dataStarted, log := true, log + [DataAccepted];
        }
      } else if dataStarted {
        body := body + line;
        Trigger(DataAdditional);
      }
    }

    /** The commands of every state but DATA. */
    method HandleOther(line: string)
      modifies this
      ensures AsSession() == ReadOther(old(AsSession()), line)
    {
      hide Lower;
      if Lower(line) == "quit\r\n" {
        Trigger(Quit);
      } else if Lower(line) == "rset\r\n" {
        Trigger(Rset);
        log := log + [Reset];
      }
    }

    /** handle_client_read: every trigger it fires is allowed where it fires it. */
    method HandleRead(p: Patterns, line: string)
      requires open
      modifies this
      ensures AsSession() == ReadStep(p, old(AsSession()), line)
      ensures old(state) == HELO && p.helo(line).Some? ==> state == HELO_WRITE
      ensures old(state) == MAIL_FROM && p.mailFrom(line).Some? ==> state == MAIL_FROM_WRITE
      ensures old(state) == RCPT_TO && p.rcptTo(line).Some? ==> state == RCPT_TO_WRITE
      ensures MailDialogue.Unawaited(p, old(AsSession()), line) ==>
                state == if Lower(line) == "quit\r\n" then QUIT_WRITE
                         else if Lower(line) == "rset\r\n" then HELO_WRITE
                         else old(state)
    {
      MailDialogue.CommandLeads(p, AsSession(), line);
      if MailDialogue.Unawaited(p, AsSession(), line) {
        MailDialogue.OtherLeads(p, AsSession(), line);
      }
      ReadLine(p, line);
    }

    method ReadLine(p: Patterns, line: string)
      modifies this
      ensures AsSession() == ReadStep(p, old(AsSession()), line)
    {
      hide ReadData, ReadOther;
      if state == HELO {
        var r := p.helo(line);
        if r.Some? {
          heloCommand, domain := r.value.0, if r.value.1 == "" then "unknown" else r.value.1;
          Trigger(Helo);
          return;
        }
      } else if state == MAIL_FROM {
        var r := p.mailFrom(line);
        if r.Some? {
          from, log := r.value, log + [Mailed(r.value)];
          Trigger(MailFrom);
          return;
        }
      } else if state == RCPT_TO {
        var r := p.rcptTo(line);
        if r.Some? {
          to, log := to + [r.value], log + [Recipient(r.value)];
          Trigger(RcptTo);
          return;
        }
      } else if state == DATA {
        HandleData(p, line);
        return;
      }
      HandleOther(line);
    }

    /** handle_client_write */
    method HandleWrite()
      requires open
      modifies this
      ensures AsSession() == WriteStep(old(AsSession()))
      ensures old(state) == GREETING_WRITE ==> state == HELO
      ensures old(state) == HELO_WRITE ==> state == MAIL_FROM
      ensures old(state) == MAIL_FROM_WRITE ==> state == RCPT_TO
      ensures old(state) == RCPT_TO_WRITE || old(state) == DATA_WRITE ==> state == DATA
      ensures old(state) == DATA_END_WRITE ==> state == QUIT
      ensures old(state) == QUIT_WRITE ==> state == FINISH
      ensures open <==> old(state) != QUIT_WRITE
    {
      hide WriteStep;
      MailDialogue.WriteLeads(AsSession());
      WriteReply();
    }

    method WriteReply()
      modifies this
      ensures AsSession() == WriteStep(old(AsSession()))
    {
      match state {
        case GREETING_WRITE => Trigger(GreetingWrite);
        case HELO_WRITE => Trigger(HeloWrite);
        case MAIL_FROM_WRITE => Trigger(MailFromWrite);
        case RCPT_TO_WRITE => Trigger(RcptToWrite);
        case DATA_WRITE => Trigger(DataStartWrite);
        case DATA_END_WRITE =>
          Trigger(DataEndWrite);
          log := log + [Queued];
        case QUIT_WRITE =>
          Trigger(QuitWrite);
          open := false;
        case _ =>
      }
    }
  }
}
