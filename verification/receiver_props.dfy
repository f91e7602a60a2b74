/** Properties of the receiver loop: what the transport events do, what the command
    levels allow, the conditions under which an item of mail is accepted, and how runs
    over several events compose. */
module ReceiverProperties {
  import opened Wrappers
  import opened Text
  import opened Patterns
  import opened Addresses
  import opened ItemOfMail
  import opened Receiver
  import ExtendedClasses
  import Headers

  /** Between commands, a step dispatches the line read and notes any level-5 line it
      wrote. */
  lemma StepDispatches(ctx: Ctx, s: Session, ev: Event, text: string)
    requires s.status.Open? && s.mode == Commands && RecvText(ev) == Some(text)
    ensures var d := Dispatch(ctx, s, text);
      Step(ctx, s, ev) == Stepped(d.0.(warned := s.warned || AnyLevel5(d.1)), d.1)
  {
  }

  // ----- Transport events -----

  /** A closed connection reads as `QUIT` between commands: the quit handler answers,
      and the session ends exactly when its answer is not a 4xx/5xx one. The item of
      mail is untouched, so an accepted item stays accepted. */
  lemma EndOfInputQuits(ctx: Ctx, s: Session, ev: Event)
    requires s.status.Open? && s.mode == Commands
    requires ev == EndOfInput || ev == Input("QUIT")
    ensures var st := Step(ctx, s, ev);
      && st.sent == LinesOf(ctx.hooks.quit(s.mail))
      && st.next.mail == s.mail && st.next.level == s.level && st.next.mode == Commands
      && (st.next.status == Closed(Quitted) <==> Ok(ctx.hooks.quit(s.mail)))
      && (st.next.status.Open? <==> !Ok(ctx.hooks.quit(s.mail)))
  {
    QuitRecognized(s.level);
    TableHead();
  }

  /** A reset connection reads as `SLAM`: the session ends without a reply and the item
      of mail is not accepted, whether or not the sender is prohibited. */
  lemma ResetSlams(ctx: Ctx, s: Session, ev: Event)
    requires s.status.Open? && s.mode == Commands
    requires ev == ConnReset || ev == Input("SLAM")
    ensures var st := Step(ctx, s, ev);
      && st.sent == [] && st.next.status == Closed(Slammed)
      && !st.next.mail.accepted && st.next.warned == s.warned
  {
    SlamRecognized(s.level);
    TableHead();
  }

  /** Silence past the timeout reads as `TIMEOUT`: the session ends with a 501 line
      naming the item's identifier, the item is not accepted, and the line counts as a
      level-5 warning. */
  lemma SilenceTimesOut(ctx: Ctx, s: Session, ev: Event)
    requires s.status.Open? && s.mode == Commands && !s.mail.prohibited
    requires ev == Silence || ev == Input("TIMEOUT")
    ensures var st := Step(ctx, s, ev);
      && st.next.status == Closed(TimedOut) && !st.next.mail.accepted && st.next.warned
      && st.sent == [TimeoutHead + s.mail.id + TimeoutTail]
  {
    StepDispatches(ctx, s, ev, "TIMEOUT");
    DispatchTimeout(ctx, s);
    var line := TimeoutHead + s.mail.id + TimeoutTail;
    assert AnyLevel5([line]) by { assert IsLevel5([line][0]); }
  }

  /** TIMEOUT is not among the words a prohibited sender may use: it is told it is
      prohibited and the session goes on unchanged. */
  lemma SilenceWhileProhibited(ctx: Ctx, s: Session, ev: Event)
    requires s.status.Open? && s.mode == Commands && s.mail.prohibited
    requires ev == Silence || ev == Input("TIMEOUT")
    ensures var st := Step(ctx, s, ev);
      st.next == s && st.sent == [Prohibited + s.mail.remoteIp + ProhibitedTail]
  {
    StepDispatches(ctx, s, ev, "TIMEOUT");
    DispatchTimeoutProhibited(ctx, s);
    var line := Prohibited + s.mail.remoteIp + ProhibitedTail;
    assert !AnyLevel5([line]) by { assert !IsLevel5(line); }
  }

  lemma DispatchTimeoutProhibited(ctx: Ctx, s: Session)
    requires s.mail.prohibited
    ensures Dispatch(ctx, s, "TIMEOUT") == (s, [Prohibited + s.mail.remoteIp + ProhibitedTail])
  {
    TimeoutRecognized(s.level);
    TableHead();
  }

  lemma DispatchTimeout(ctx: Ctx, s: Session)
    requires !s.mail.prohibited
    ensures Dispatch(ctx, s, "TIMEOUT") == (Close(s, TimedOut), [TimeoutHead + s.mail.id + TimeoutTail])
  {
    TimeoutRecognized(s.level);
    TableHead();
  }

  /** An I/O error while reading ends the session through the `Quit` exception in
      either mode: no reply, and the item of mail is not accepted. */
  lemma IoErrorAborts(ctx: Ctx, s: Session)
    requires s.status.Open?
    ensures var st := Step(ctx, s, IoError);
      && st.sent == [] && st.next.status == Closed(IoFailed) && !st.next.mail.accepted
      && st.next.mail == s.mail.(accepted := false) && st.next.level == s.level
  {
  }

  // ----- Command levels -----

  /** A line that no entry legal at the session's level matches is answered with 500,
      quoting the line, and changes nothing but the warning flag. */
  lemma UnrecognizedChangesNothing(ctx: Ctx, s: Session, text: string)
    requires s.status.Open? && s.mode == Commands
    requires forall k :: 0 <= k < |Table| && Table[k].minLevel <= s.level ==> Recognize(Table[k].pattern, text).None?
    ensures var st := Step(ctx, s, Input(text));
      && st.sent == [Unrecognized + Inspect(text) + UnrecognizedTail]
      && st.next == s.(warned := true)
  {
    assert Patterns.Scan(s.level, text, 0).None?;
    var line := Unrecognized + Inspect(text) + UnrecognizedTail;
    assert Dispatch(ctx, s, text) == (s, [line]);
    assert IsLevel5(line);
    assert AnyLevel5([line]) by { assert IsLevel5([line][0]); }
  }

  /** After an accepted RSET the level is 0, where only QUIT, SLAM and TIMEOUT are
      recognised: the session can end, but while it stays open neither the item of mail
      nor the level nor the mode changes. */
  lemma LevelZeroOnlyEnds(ctx: Ctx, s: Session, text: string)
    requires s.status.Open? && s.mode == Commands && s.level == 0
    ensures var st := Step(ctx, s, Input(text));
      st.next.status.Open? ==> st.next == s.(warned := st.next.warned)
  {
    StepDispatches(ctx, s, Input(text), text);
    DispatchLevelZero(ctx, s, text);
  }

  lemma DispatchLevelZero(ctx: Ctx, s: Session, text: string)
    requires s.level == 0
    ensures var d := Dispatch(ctx, s, text);
      d.0 == s || d.0.status.Closed?
  {
    TableShape();
    match Patterns.Scan(s.level, text, 0)
    case None =>
    case Some(hit) =>
      assert LevelOf(hit.index) == 0;
      var h := Table[hit.index].handler;
      assert h == DoQuit || h == DoSlam || h == DoTimeout by {
        assert hit.index < 3;
        assert hit.index == 0 || hit.index == 1 || hit.index == 2;
      }
      if s.mail.prohibited && h == DoTimeout {
        assert Dispatch(ctx, s, text).0 == s;
      } else if h == DoQuit {
        assert Dispatch(ctx, s, text) == HandleQuit(ctx, s);
      } else if h == DoSlam {
        assert Dispatch(ctx, s, text).0 == Close(s, Slammed);
      } else {
        assert Dispatch(ctx, s, text).0 == Close(s, TimedOut);
      }
  }

  /** A sender the connect hook marked as prohibited gets nothing done: QUIT and SLAM
      still end the session, every other recognised command is answered with 450, and
      while the session stays open the item of mail, the level and the mode are as
      they were. */
  lemma ProhibitedOnlyQuits(ctx: Ctx, s: Session, ev: Event)
    requires s.status.Open? && s.mode == Commands && s.mail.prohibited
    ensures var st := Step(ctx, s, ev);
      st.next.status.Open? ==> st.next == s.(warned := st.next.warned)
  {
    match RecvText(ev)
    case None =>
    case Some(text) =>
      StepDispatches(ctx, s, ev, text);
      DispatchProhibited(ctx, s, text);
  }

  lemma DispatchProhibited(ctx: Ctx, s: Session, text: string)
    requires s.mail.prohibited
    ensures var d := Dispatch(ctx, s, text);
      d.0 == s || d.0.status.Closed?
  {
    match Patterns.Scan(s.level, text, 0)
    case None =>
    case Some(hit) =>
      var h := Table[hit.index].handler;
      if h == DoQuit {
        assert Dispatch(ctx, s, text) == HandleQuit(ctx, s);
      } else if h == DoSlam {
        assert Dispatch(ctx, s, text) == (Close(s, Slammed), []);
      } else {
        assert Dispatch(ctx, s, text).0 == s;
      }
  }

  // ----- The transaction invariant -----

  /** What every reachable session satisfies: the level is at most 4; a body is being
      collected only at level 4, after DATA started one; and at level 4 an accepted
      sender comes with at least one recipient. */
  predicate Inv(s: Session) {
    && s.level <= 4
    && (s.mode == Collecting ==> s.level == 4 && s.mail.data.Some?)
    && (s.level == 4 && SenderAccepted(s.mail) ==> s.mail.rcptto.Some? && |s.mail.rcptto.value| > 0)
  }

  /** DATA is the only entry that starts collecting, and it is legal only at level 4. */
  lemma DataEntryLevel()
    ensures forall k :: 0 <= k < |Table| && Table[k].handler == DoData ==> Table[k].minLevel == 4
  {
  }

  lemma HandlePreservesInv(ctx: Ctx, s: Session, h: Handler, arg: string)
    requires Inv(s) && s.mode == Commands
    requires h == DoData ==> s.level == 4
    ensures Inv(Handle(ctx, s, h, arg).0)
  {
    match h
    case DoMailFrom => MailFromPreservesInv(ctx, s, arg);
    case DoRcptTo => RcptToPreservesInv(ctx, s, arg);
    case DoAuth => AuthPreservesInv(ctx, s, arg);
    case DoEhlo => EhloPreservesInv(ctx, s, arg);
    case _ =>
  }

  lemma MailFromPreservesInv(ctx: Ctx, s: Session, arg: string)
    requires Inv(s) && s.mode == Commands
    ensures Inv(HandleMailFrom(ctx, s, arg).0)
  {
    var (addr, refusal) := PsychValue(MailFrom, arg, ctx.opts, ctx.env.dns);
    assert !addr.accepted;
  }

  lemma RcptToPreservesInv(ctx: Ctx, s: Session, arg: string)
    requires Inv(s) && s.mode == Commands
    ensures Inv(HandleRcptTo(ctx, s, arg).0)
  {
    var (addr, refusal) := PsychValue(RcptTo, arg, ctx.opts, ctx.env.dns);
    var before := s.mail.rcptto.GetOr([]);
    var m1 := s.mail.(rcptto := Some(before + [addr]));
    if refusal.Some? {
      assert HandleRcptTo(ctx, s, arg).0 == s.(mail := m1);
    } else if Ok(ctx.hooks.rcptTo(m1)) {
      assert HandleRcptTo(ctx, s, arg).0
        == s.(mail := m1.(rcptto := Some(before + [addr.(accepted := true)])), level := 4);
    } else {
      assert HandleRcptTo(ctx, s, arg).0 == s.(mail := m1);
    }
  }

  lemma AuthPreservesInv(ctx: Ctx, s: Session, arg: string)
    requires Inv(s) && s.mode == Commands
    ensures Inv(HandleAuth(ctx, s, arg).0)
  {
  }

  lemma EhloPreservesInv(ctx: Ctx, s: Session, arg: string)
    requires Inv(s) && s.mode == Commands
    ensures Inv(HandleEhlo(ctx, s, arg).0)
  {
  }

  lemma DispatchPreservesInv(ctx: Ctx, s: Session, text: string)
    requires Inv(s) && s.mode == Commands
    ensures Inv(Dispatch(ctx, s, text).0)
  {
    match Patterns.Scan(s.level, text, 0)
    case None =>
    case Some(hit) =>
      var h := Table[hit.index].handler;
      DataEntryLevel();
      HandlePreservesInv(ctx, s, h, Strip(text[hit.group..]));
  }

  lemma CollectPreservesInv(ctx: Ctx, s: Session, text: string)
    requires Inv(s) && s.mode == Collecting
    ensures Inv(Collect(ctx, s, text).0)
  {
    var body := BodyOf(s.mail);
    if text == "." {
      var s1 := s.(mail := s.mail.(data := Some(body.(text := body.text + [text], accepted := true))));
      assert Collect(ctx, s, text) == FinishData(ctx, s1);
      assert Inv(s1);
      FinishDataPreservesInv(ctx, s1);
    }
  }

  lemma FinishDataPreservesInv(ctx: Ctx, s: Session)
    requires Inv(s) && s.mode == Collecting
    ensures Inv(FinishData(ctx, s).0)
  {
    var (m1, parsed) := ParseHeaders(s.mail);
    assert m1.mailfrom == s.mail.mailfrom && m1.rcptto == s.mail.rcptto && m1.data.Some?;
  }

  /** Every step keeps the invariant. */
  lemma StepPreservesInv(ctx: Ctx, s: Session, ev: Event)
    requires s.status.Open? && Inv(s)
    ensures Inv(Step(ctx, s, ev).next)
  {
    match RecvText(ev)
    case None =>
    case Some(text) =>
      if s.mode == Commands {
        StepDispatches(ctx, s, ev, text);
        DispatchPreservesInv(ctx, s, text);
      } else {
        CollectPreservesInv(ctx, s, text);
      }
  }

  // ----- The verdict -----

  /** The verdict on the mail, as the end of DATA computes it. */
  predicate Verdict(s: Session) {
    SenderAccepted(s.mail) && AllRecipientsAccepted(s.mail) && !s.warned
  }

  /** The body as it stands once the `.` line is added. */
  function Ended(s: Session): (b: Body)
    ensures b.accepted && b.text == BodyOf(s.mail).text + ["."]
  {
    BodyOf(s.mail).(text := BodyOf(s.mail).text + ["."], accepted := true)
  }

  /** Whether the DKIM verifier's report ends the session. */
  predicate DkimFaults(ctx: Ctx, lines: seq<string>) {
    ctx.env.dkim(lines).ok && ctx.env.dkim(lines).signatures > 0
  }

  /** The `.` line ends the body. When its headers parse and the DKIM report does not
      fault, the mail becomes accepted exactly when it already was or the sender and
      every recipient were accepted and no level-5 line was written; the level drops
      to 1, the loop reads commands again, and the `data` hook answers with the verdict
      already recorded. */
  lemma DataVerdict(ctx: Ctx, s: Session)
    requires s.status.Open? && s.mode == Collecting
    requires Headers.ParseHeaders(Ended(s).text).Parsed? && !DkimFaults(ctx, Ended(s).text)
    ensures var st := Step(ctx, s, Input("."));
      && (st.next.mail.accepted <==> s.mail.accepted || Verdict(s))
      && st.next.status.Open? && st.next.mode == Commands && st.next.level == 1
      && st.next.mail.data == Some(Ended(s).(headers := Some(Headers.ParseHeaders(Ended(s).text))))
      && st.next.mail.mailfrom == s.mail.mailfrom && st.next.mail.rcptto == s.mail.rcptto
      && st.sent == LinesOf(ctx.hooks.data(st.next.mail))
  {
    var s1 := s.(mail := s.mail.(data := Some(Ended(s))));
    assert Collect(ctx, s, ".") == FinishData(ctx, s1);
    FinishDataVerdict(ctx, s1);
  }

  lemma FinishDataVerdict(ctx: Ctx, s: Session)
    requires s.mail.data.Some? && s.mail.data.value.accepted
    requires Headers.ParseHeaders(s.mail.data.value.text).Parsed? && !DkimFaults(ctx, s.mail.data.value.text)
    ensures var (n, sent) := FinishData(ctx, s);
      && (n.mail.accepted <==> s.mail.accepted || Verdict(s))
      && n.status == s.status && n.mode == Commands && n.level == 1 && n.warned == s.warned
      && n.mail == s.mail.(accepted := n.mail.accepted,
                           data := Some(s.mail.data.value.(headers := Some(Headers.ParseHeaders(s.mail.data.value.text)))))
      && sent == LinesOf(ctx.hooks.data(n.mail))
  {
  }

  /** A body whose headers do not parse, or whose DKIM report lists signatures, ends
      the session with nothing written and the mail not accepted. */
  lemma DataFaults(ctx: Ctx, s: Session)
    requires s.status.Open? && s.mode == Collecting
    requires !Headers.ParseHeaders(Ended(s).text).Parsed? || DkimFaults(ctx, Ended(s).text)
    ensures var st := Step(ctx, s, Input("."));
      st.sent == [] && st.next.status == Closed(Faulted) && !st.next.mail.accepted
  {
    var s1 := s.(mail := s.mail.(data := Some(Ended(s))));
    assert Collect(ctx, s, ".") == FinishData(ctx, s1);
  }

  /** Any other line while collecting, including the `QUIT`, `SLAM` and `TIMEOUT` that
      stand for transport events, is appended to the body verbatim; nothing is written
      and the session goes on collecting. */
  lemma CollectKeepsLine(ctx: Ctx, s: Session, ev: Event)
    requires s.status.Open? && s.mode == Collecting
    requires RecvText(ev).Some? && RecvText(ev).value != "."
    ensures var st := Step(ctx, s, ev);
      && st.sent == [] && st.next.status.Open? && st.next.mode == Collecting
      && st.next == s.(mail := s.mail.(data := Some(BodyOf(s.mail).(text := BodyOf(s.mail).text + [RecvText(ev).value]))))
  {
    assert !AnyLevel5([]);
  }

  /** Only DATA starts collecting a body, and DATA is not recognised below level 4:
      there a step leaves the loop reading commands. */
  lemma DataNeedsLevelFour(ctx: Ctx, s: Session, ev: Event)
    requires s.status.Open? && s.mode == Commands && s.level < 4
    ensures Step(ctx, s, ev).next.mode == Commands
  {
    match RecvText(ev)
    case None =>
    case Some(text) =>
      StepDispatches(ctx, s, ev, text);
      match Patterns.Scan(s.level, text, 0)
      case None =>
      case Some(hit) =>
        DataEntryLevel();
        HandleKeepsMode(ctx, s, Table[hit.index].handler, Strip(text[hit.group..]));
  }

  lemma HandleKeepsMode(ctx: Ctx, s: Session, h: Handler, arg: string)
    requires h != DoData
    ensures Handle(ctx, s, h, arg).0.mode == s.mode
  {
    match h
    case DoMailFrom => MailFromFrame(ctx, s, arg);
    case DoRcptTo => RcptToFrame(ctx, s, arg);
    case DoAuth => AuthFrame(ctx, s, arg);
    case DoEhlo => EhloFrame(ctx, s, arg);
    case _ =>
  }

  // ----- Acceptance needs a whole transaction -----

  lemma HandleNeverAccepts(ctx: Ctx, s: Session, h: Handler, arg: string)
    ensures Handle(ctx, s, h, arg).0.mail.accepted ==> s.mail.accepted
  {
    match h
    case DoMailFrom => MailFromFrame(ctx, s, arg);
    case DoRcptTo => RcptToFrame(ctx, s, arg);
    case DoAuth => AuthFrame(ctx, s, arg);
    case DoEhlo => EhloFrame(ctx, s, arg);
    case _ =>
  }

  lemma DispatchNeverAccepts(ctx: Ctx, s: Session, text: string)
    ensures Dispatch(ctx, s, text).0.mail.accepted ==> s.mail.accepted
  {
    match Patterns.Scan(s.level, text, 0)
    case None =>
    case Some(hit) =>
      HandleNeverAccepts(ctx, s, Table[hit.index].handler, Strip(text[hit.group..]));
  }

  /** A step that turns the mail accepted is the `.` line of a body, after a sender and
      every recipient were accepted, and before any level-5 line was written. */
  lemma AcceptanceNeedsVerdict(ctx: Ctx, s: Session, ev: Event)
    requires s.status.Open? && !s.mail.accepted && Step(ctx, s, ev).next.mail.accepted
    ensures s.mode == Collecting && ev == Input(".") && !s.warned
    ensures SenderAccepted(s.mail) && AllRecipientsAccepted(s.mail)
    ensures Step(ctx, s, ev).next.mail.mailfrom == s.mail.mailfrom
    ensures Step(ctx, s, ev).next.mail.rcptto == s.mail.rcptto
  {
    match RecvText(ev)
    case None =>
    case Some(text) =>
      if s.mode == Commands {
        StepDispatches(ctx, s, ev, text);
        DispatchNeverAccepts(ctx, s, text);
      } else if text == "." {
        var s1 := s.(mail := s.mail.(data := Some(Ended(s))));
        assert Collect(ctx, s, ".") == FinishData(ctx, s1);
      }
  }

  /** In a reachable session, the mail is accepted only with at least one recipient. */
  lemma AcceptanceNeedsRecipient(ctx: Ctx, s: Session, ev: Event)
    requires s.status.Open? && Inv(s) && !s.mail.accepted && Step(ctx, s, ev).next.mail.accepted
    ensures var m := Step(ctx, s, ev).next.mail;
      m.rcptto.Some? && |m.rcptto.value| > 0 && forall k | 0 <= k < |m.rcptto.value| :: m.rcptto.value[k].accepted
  {
    AcceptanceNeedsVerdict(ctx, s, ev);
  }

  // ----- Runs -----

  /** The session `receive` starts from satisfies the invariant. */
  lemma StartInv(ctx: Ctx, peer: Peer, clock: Clock)
    requires ValidClock(clock)
    ensures Inv(Start(ctx, peer, clock).0)
  {
  }

  /** A closed session reads no more events. */
  lemma ClosedIsFinal(ctx: Ctx, s: Session, events: seq<Event>)
    requires s.status.Closed?
    ensures Receiver.Run(ctx, s, events) == (s, [])
  {
  }

  /** An open session takes the first event, then runs over the rest. */
  lemma RunStep(ctx: Ctx, s: Session, events: seq<Event>)
    requires |events| > 0 && s.status.Open?
    ensures var st := Step(ctx, s, events[0]);
      var rest := Receiver.Run(ctx, st.next, events[1..]);
      Receiver.Run(ctx, s, events) == (rest.0, st.sent + rest.1)
  {
  }

  /** Once a run has closed the session, further events change nothing: neither the
      session nor the lines written. */
  lemma {:induction false} RunStopsAtClose(ctx: Ctx, s: Session, a: seq<Event>, b: seq<Event>)
    requires Receiver.Run(ctx, s, a).0.status.Closed?
    ensures Receiver.Run(ctx, s, a + b) == Receiver.Run(ctx, s, a)
    decreases |a|
  {
    if s.status.Closed? {
      ClosedIsFinal(ctx, s, a);
      ClosedIsFinal(ctx, s, a + b);
    } else {
      assert |a| > 0;
      var st := Step(ctx, s, a[0]);
      RunStep(ctx, s, a);
      RunStep(ctx, s, a + b);
      assert (a + b)[0] == a[0];
      assert (a + b)[1..] == a[1..] + b;
      RunStopsAtClose(ctx, st.next, a[1..], b);
    }
  }

  /** Every session a run reaches satisfies the invariant. */
  lemma {:induction false} RunPreservesInv(ctx: Ctx, s: Session, events: seq<Event>)
    requires Inv(s)
    ensures Inv(Receiver.Run(ctx, s, events).0)
    decreases |events|
  {
    if |events| > 0 && s.status.Open? {
      StepPreservesInv(ctx, s, events[0]);
      RunPreservesInv(ctx, Step(ctx, s, events[0]).next, events[1..]);
    }
  }

  lemma AnyLevel5Append(a: seq<string>, b: seq<string>)
    ensures AnyLevel5(a + b) <==> AnyLevel5(a) || AnyLevel5(b)
  {
    if AnyLevel5(a + b) {
      var k :| 0 <= k < |a + b| && IsLevel5((a + b)[k]);
      if k >= |a| {
        assert b[k - |a|] == (a + b)[k];
      }
    }
    if AnyLevel5(a) {
      var k :| 0 <= k < |a| && IsLevel5(a[k]);
      assert (a + b)[k] == a[k];
    }
    if AnyLevel5(b) {
      var k :| 0 <= k < |b| && IsLevel5(b[k]);
      assert (a + b)[|a| + k] == b[k];
    }
  }

  /** The warning flag at the end of a run is set exactly when it was set at the start
      or some line written during the run begins with `5`. */
  lemma {:induction false} RunWarned(ctx: Ctx, s: Session, events: seq<Event>)
    ensures Receiver.Run(ctx, s, events).0.warned <==> s.warned || AnyLevel5(Receiver.Run(ctx, s, events).1)
    decreases |events|
  {
    if |events| > 0 && s.status.Open? {
      var st := Step(ctx, s, events[0]);
      RunWarned(ctx, st.next, events[1..]);
      AnyLevel5Append(st.sent, Receiver.Run(ctx, st.next, events[1..]).1);
    }
  }

  /** Once a level-5 line has been written, a mail that is not yet accepted never will
      be in this session. */
  lemma {:induction false} WarnedBlocksAcceptance(ctx: Ctx, s: Session, events: seq<Event>)
    requires s.warned && !s.mail.accepted
    ensures !Receiver.Run(ctx, s, events).0.mail.accepted
    decreases |events|
  {
    if |events| > 0 && s.status.Open? {
      var st := Step(ctx, s, events[0]);
      if st.next.mail.accepted {
        AcceptanceNeedsVerdict(ctx, s, events[0]);
      }
      WarnedBlocksAcceptance(ctx, st.next, events[1..]);
    }
  }

  /** A prohibited sender's mail is never accepted, whatever the client sends. */
  lemma {:induction false} ProhibitedNeverAccepted(ctx: Ctx, s: Session, events: seq<Event>)
    requires s.mode == Commands && s.mail.prohibited && !s.mail.accepted
    ensures !Receiver.Run(ctx, s, events).0.mail.accepted
    decreases |events|
  {
    if |events| > 0 && s.status.Open? {
      var st := Step(ctx, s, events[0]);
      ProhibitedOnlyQuits(ctx, s, events[0]);
      if st.next.mail.accepted {
        AcceptanceNeedsVerdict(ctx, s, events[0]);
      }
      if st.next.status.Open? {
        ProhibitedNeverAccepted(ctx, st.next, events[1..]);
      } else {
        ClosedIsFinal(ctx, st.next, events[1..]);
      }
    }
  }

  /** A closing step keeps the mail accepted only when the client quit or the TLS
      handshake failed; every other way out marks it not accepted. */
  lemma ClosingStepEnding(ctx: Ctx, s: Session, ev: Event)
    requires s.status.Open?
    requires Step(ctx, s, ev).next.status.Closed? && Step(ctx, s, ev).next.mail.accepted
    ensures Step(ctx, s, ev).next.status.ending in {Quitted, TlsFailed}
  {
    match RecvText(ev)
    case None =>
    case Some(text) =>
      if s.mode == Commands {
        StepDispatches(ctx, s, ev, text);
        DispatchEnding(ctx, s, text);
      } else if text == "." {
        var s1 := s.(mail := s.mail.(data := Some(Ended(s))));
        assert Collect(ctx, s, ".") == FinishData(ctx, s1);
      }
  }

  lemma DispatchEnding(ctx: Ctx, s: Session, text: string)
    requires s.status.Open?
    requires Dispatch(ctx, s, text).0.status.Closed? && Dispatch(ctx, s, text).0.mail.accepted
    ensures Dispatch(ctx, s, text).0.status.ending in {Quitted, TlsFailed}
  {
    match Patterns.Scan(s.level, text, 0)
    case None =>
    case Some(hit) =>
      HandleEnding(ctx, s, Table[hit.index].handler, Strip(text[hit.group..]));
  }

  lemma HandleEnding(ctx: Ctx, s: Session, h: Handler, arg: string)
    requires s.status.Open?
    ensures var n := Handle(ctx, s, h, arg).0;
      n.status.Closed? && n.mail.accepted ==> n.status.ending in {Quitted, TlsFailed}
  {
    match h
    case DoMailFrom => MailFromFrame(ctx, s, arg);
    case DoRcptTo => RcptToFrame(ctx, s, arg);
    case DoAuth => AuthFrame(ctx, s, arg);
    case DoEhlo => EhloFrame(ctx, s, arg);
    case _ =>
  }

  /** The session a run ends in, if closed and accepted, was closed by QUIT or by a
      failed TLS handshake. */
  lemma {:induction false} RunEnding(ctx: Ctx, s: Session, events: seq<Event>)
    requires s.status.Open?
    requires Receiver.Run(ctx, s, events).0.status.Closed? && Receiver.Run(ctx, s, events).0.mail.accepted
    ensures Receiver.Run(ctx, s, events).0.status.ending in {Quitted, TlsFailed}
    decreases |events|
  {
    var st := Step(ctx, s, events[0]);
    RunStep(ctx, s, events);
    if st.next.status.Closed? {
      ClosedIsFinal(ctx, st.next, events[1..]);
      ClosingStepEnding(ctx, s, events[0]);
    } else {
      RunEnding(ctx, st.next, events[1..]);
    }
  }

  // ----- The whole conversation -----

  /** Once `receive` has finished, more client input changes nothing: the item of mail
      handed to `received`, the ending and the transcript stay as they were. */
  lemma ReceiveFinishedIsFinal(ctx: Ctx, peer: Peer, clock: Clock, events: seq<Event>, more: seq<Event>)
    requires ValidClock(clock) && Receive(ctx, peer, clock, events).Finished?
    ensures Receive(ctx, peer, clock, events + more) == Receive(ctx, peer, clock, events)
  {
    var s0 := Start(ctx, peer, clock).0;
    RunStopsAtClose(ctx, s0, events, more);
  }

  /** A mail handed to `received` as accepted: the session ended with QUIT or a failed
      TLS handshake, its sender was not prohibited, and no reply before the acceptance
      began with `5`. */
  lemma ReceivedAcceptedMail(ctx: Ctx, peer: Peer, clock: Clock, events: seq<Event>)
    requires ValidClock(clock)
    requires Receive(ctx, peer, clock, events).Finished? && Receive(ctx, peer, clock, events).mail.accepted
    ensures Receive(ctx, peer, clock, events).ending in {Quitted, TlsFailed}
    ensures !Receive(ctx, peer, clock, events).mail.prohibited
  {
    var s0 := Start(ctx, peer, clock).0;
    RunEnding(ctx, s0, events);
    if s0.mail.prohibited {
      ProhibitedNeverAccepted(ctx, s0, events);
    }
    RunKeepsProhibited(ctx, s0, events);
  }

  /** No command changes whether the sender is prohibited. */
  lemma {:induction false} RunKeepsProhibited(ctx: Ctx, s: Session, events: seq<Event>)
    ensures Receiver.Run(ctx, s, events).0.mail.prohibited == s.mail.prohibited
    decreases |events|
  {
    if |events| > 0 && s.status.Open? {
      var st := Step(ctx, s, events[0]);
      StepKeepsProhibited(ctx, s, events[0]);
      RunKeepsProhibited(ctx, st.next, events[1..]);
    }
  }

  lemma StepKeepsProhibited(ctx: Ctx, s: Session, ev: Event)
    requires s.status.Open?
    ensures Step(ctx, s, ev).next.mail.prohibited == s.mail.prohibited
  {
    match RecvText(ev)
    case None =>
    case Some(text) =>
      if s.mode == Commands {
        StepDispatches(ctx, s, ev, text);
        DispatchKeepsProhibited(ctx, s, text);
      } else {
        CollectKeepsProhibited(ctx, s, text);
      }
  }

  lemma DispatchKeepsProhibited(ctx: Ctx, s: Session, text: string)
    ensures Dispatch(ctx, s, text).0.mail.prohibited == s.mail.prohibited
  {
    match Patterns.Scan(s.level, text, 0)
    case None =>
    case Some(hit) =>
      HandleKeepsProhibited(ctx, s, Table[hit.index].handler, Strip(text[hit.group..]));
  }

  lemma CollectKeepsProhibited(ctx: Ctx, s: Session, text: string)
    ensures Collect(ctx, s, text).0.mail.prohibited == s.mail.prohibited
  {
    if text == "." {
      var s1 := s.(mail := s.mail.(data := Some(Ended(s))));
      assert Collect(ctx, s, ".") == FinishData(ctx, s1);
    }
  }

  lemma HandleKeepsProhibited(ctx: Ctx, s: Session, h: Handler, arg: string)
    ensures Handle(ctx, s, h, arg).0.mail.prohibited == s.mail.prohibited
  {
    match h
    case DoMailFrom => MailFromFrame(ctx, s, arg);
    case DoRcptTo => RcptToFrame(ctx, s, arg);
    case DoAuth => AuthFrame(ctx, s, arg);
    case DoEhlo => EhloFrame(ctx, s, arg);
    case _ =>
  }

  /** MAIL FROM, RCPT TO and EHLO keep the session open and leave the prohibition and
      the acceptance alone. */
  lemma MailFromFrame(ctx: Ctx, s: Session, arg: string)
    ensures var n := HandleMailFrom(ctx, s, arg).0;
      && n.mail.prohibited == s.mail.prohibited && n.status == s.status && n.mode == s.mode
      && n.mail.accepted == s.mail.accepted
  {}

  lemma RcptToFrame(ctx: Ctx, s: Session, arg: string)
    ensures var n := HandleRcptTo(ctx, s, arg).0;
      && n.mail.prohibited == s.mail.prohibited && n.status == s.status && n.mode == s.mode
      && n.mail.accepted == s.mail.accepted
  {
    var (addr, refusal) := PsychValue(RcptTo, arg, ctx.opts, ctx.env.dns);
    var before := s.mail.rcptto.GetOr([]);
    var m1 := s.mail.(rcptto := Some(before + [addr]));
    if refusal.None? && Ok(ctx.hooks.rcptTo(m1)) {
      assert HandleRcptTo(ctx, s, arg).0 == s.(mail := m1.(rcptto := Some(before + [addr.(accepted := true)])), level := 4);
    } else {
      assert HandleRcptTo(ctx, s, arg).0 == s.(mail := m1);
    }
  }

  lemma EhloFrame(ctx: Ctx, s: Session, arg: string)
    ensures var n := HandleEhlo(ctx, s, arg).0;
      && n.mail.prohibited == s.mail.prohibited && n.status == s.status && n.mode == s.mode
      && n.mail.accepted == s.mail.accepted
  {}

  /** AUTH leaves the prohibition alone; where it ends the session, it is the rescue of
      last resort, and the item of mail is not accepted. */
  lemma AuthFrame(ctx: Ctx, s: Session, arg: string)
    ensures var n := HandleAuth(ctx, s, arg).0;
      && n.mail.prohibited == s.mail.prohibited && n.mode == s.mode && (n.mail.accepted ==> s.mail.accepted)
      && (n.status == s.status || (n.status == Closed(Faulted) && !n.mail.accepted))
  {}

  // ----- Handlers -----

  /** MAIL FROM starts a transaction: the recipient list is emptied and the new sender
      recorded. The sender is accepted, and the level raised to 3, exactly when its
      address was not refused and the `mail_from` hook answered without a 4xx/5xx
      line; a refused address is answered with its 501 line, which counts as a
      level-5 warning. */
  lemma MailFromStartsTransaction(ctx: Ctx, s: Session, arg: string)
    ensures var (n, out) := HandleMailFrom(ctx, s, arg);
      var (addr, refusal) := PsychValue(MailFrom, arg, ctx.opts, ctx.env.dns);
      var m1 := s.mail.(mailfrom := Some(addr), rcptto := Some([]));
      && n.mail.rcptto == Some([]) && n.mail.mailfrom.Some? && n.mail.mailfrom.value.value == arg
      && n.mail.mailfrom.value.parts == addr.parts
      && (SenderAccepted(n.mail) <==> refusal.None? && Ok(ctx.hooks.mailFrom(m1)))
      && n.level == (if SenderAccepted(n.mail) then 3 else s.level)
      && (refusal.Some? ==> out == [refusal.value] && AnyLevel5(out))
      && n.status == s.status && n.mode == s.mode && n.mail.accepted == s.mail.accepted
  {
    var (addr, refusal) := PsychValue(MailFrom, arg, ctx.opts, ctx.env.dns);
    if refusal.Some? {
      assert IsLevel5([refusal.value][0]) by { assert refusal.value[..4] == "501 "; }
    }
  }

  /** RCPT TO appends one recipient and keeps the ones before it. The new recipient is
      accepted, and the level raised to 4, exactly when its address was not refused
      and the `rcpt_to` hook answered without a 4xx/5xx line. */
  lemma RcptToAppendsOne(ctx: Ctx, s: Session, arg: string)
    ensures var (n, out) := HandleRcptTo(ctx, s, arg);
      var (addr, refusal) := PsychValue(RcptTo, arg, ctx.opts, ctx.env.dns);
      var before := s.mail.rcptto.GetOr([]);
      var m1 := s.mail.(rcptto := Some(before + [addr]));
      && n.mail.rcptto.Some? && |n.mail.rcptto.value| == |before| + 1
      && n.mail.rcptto.value[..|before|] == before
      && n.mail.rcptto.value[|before|].value == arg
      && (n.mail.rcptto.value[|before|].accepted <==> refusal.None? && Ok(ctx.hooks.rcptTo(m1)))
      && n.level == (if n.mail.rcptto.value[|before|].accepted then 4 else s.level)
      && (refusal.Some? ==> out == [refusal.value] && AnyLevel5(out))
      && n.mail.mailfrom == s.mail.mailfrom && n.status == s.status && n.mode == s.mode
  {
    var (addr, refusal) := PsychValue(RcptTo, arg, ctx.opts, ctx.env.dns);
    var before := s.mail.rcptto.GetOr([]);
    assert (before + [addr])[..|before|] == before;
    assert (before + [addr.(accepted := true)])[..|before|] == before;
    if refusal.Some? {
      assert IsLevel5([refusal.value][0]) by { assert refusal.value[..4] == "501 "; }
    }
  }

  /** AUTH: an argument without words ends the session; a mechanism other than PLAIN
      (in any letter case) is answered with 504 and changes nothing; the user is
      recorded only when the stored password hash of the decoded user name exists and
      the decoded password checks against it. For PLAIN, a passing check records the
      user and answers 235, a failing one answers 530 and changes nothing, and a crypt
      library that raises ends the session. */
  lemma AuthOutcome(ctx: Ctx, s: Session, arg: string)
    requires s.status.Open?
    ensures var (n, out) := HandleAuth(ctx, s, arg);
      var w := Words(arg);
      && (|w| == 0 ==> n.status == Closed(Faulted) && !n.mail.accepted && out == [])
      && (|w| > 0 && Upcase(w[0]) != "PLAIN" ==> n == s && out == [AuthUnsupported])
      && (n.mail.authenticated != s.mail.authenticated ==>
            && |w| > 0 && Upcase(w[0]) == "PLAIN" && out == [AuthSucceeded]
            && n.mail.authenticated.Some? && Nth(w, 1).Some?
            && var (u, pw) := ExtendedClasses.PlainCredentials(ctx.env.decode64(Nth(w, 1).value));
               && u == n.mail.authenticated && pw.Some?
               && ctx.hooks.password(u.value).Some?
               && ctx.env.crypt(pw.value, ExtendedClasses.HashDigest(ctx.hooks.password(u.value).value)) == Some(true))
    ensures var (n, out) := HandleAuth(ctx, s, arg);
      var w := Words(arg);
      |w| > 0 && Upcase(w[0]) == "PLAIN" ==>
        match ExtendedClasses.ValidatePlain(Nth(w, 1), ctx.env.decode64, ctx.hooks.password, ctx.env.crypt)
        case Raised => n.status == Closed(Faulted) && !n.mail.accepted && out == []
        case Checked(user, ok) =>
          && (ok ==> n == s.(mail := s.mail.(authenticated := Some(user))) && out == [AuthSucceeded])
          && (!ok ==> n == s && out == [AuthFailed])
  {
  }

  /** `AUTH PLAIN` with a well-formed message for a user whose stored `{SCHEME}digest`
      the password checks against records the user and answers 235. */
  lemma PlainLoginSucceeds(ctx: Ctx, s: Session, arg: string, blob: string,
                           authzid: string, user: string, password: string,
                           scheme: string, digest: string)
    requires s.status.Open?
    requires |Words(arg)| >= 2 && Upcase(Words(arg)[0]) == "PLAIN" && Words(arg)[1] == blob
    requires ctx.env.decode64(blob) == authzid + "\0" + user + "\0" + password
    requires '\0' !in authzid && '\0' !in user && '\0' !in password && password != ""
    requires '}' !in scheme && '}' !in digest
    requires ctx.hooks.password(user) == Some("{" + scheme + "}" + digest)
    requires ctx.env.crypt(password, Some(digest)) == Some(true)
    ensures HandleAuth(ctx, s, arg) == (s.(mail := s.mail.(authenticated := Some(user))), [AuthSucceeded])
  {
    ExtendedClasses.PlainLogin(blob, ctx.env.decode64, ctx.hooks.password, ctx.env.crypt,
                               authzid, user, password, scheme, digest, true);
    AuthOutcome(ctx, s, arg);
  }

  /** EHLO records what the DNS says about its argument. With validation on, a name
      whose forward and reverse lookups disagree is answered with 550 and the level
      stays; otherwise the level becomes 2 exactly when the `ehlo` hook answers
      without a 4xx/5xx line. */
  lemma EhloOutcome(ctx: Ctx, s: Session, arg: string)
    ensures var (n, out) := HandleEhlo(ctx, s, arg);
      var e := EhloFacts(ctx.env.dns, arg);
      && n.mail == s.mail.(ehlo := Some(e)) && n.status == s.status && n.mode == s.mode
      && (ctx.opts.ehloValidationCheck && !EhloValidates(e) ==> n.level == s.level && out == [EhloInvalid])
      && (!(ctx.opts.ehloValidationCheck && !EhloValidates(e)) ==>
            out == LinesOf(ctx.hooks.ehlo(n.mail)) && (n.level == 2 || n.level == s.level)
            && (n.level != s.level ==> Ok(ctx.hooks.ehlo(n.mail)))
            && (Ok(ctx.hooks.ehlo(n.mail)) ==> n.level == 2))
  {
  }

  /** The default handlers answer without a 4xx/5xx line, prohibit no one and know no
      password, so with them every command that can raise the level does. */
  lemma DefaultRepliesOk(greetingTime: string, m: Mail, user: string)
    ensures var h := DefaultHooks(greetingTime);
      && Ok(h.connect(m)) && Ok(h.ehlo(m)) && Ok(h.quit(m)) && Ok(h.rset(m))
      && Ok(h.mailFrom(m)) && Ok(h.rcptTo(m)) && Ok(h.data(m))
      && !h.prohibits(m) && h.password(user).None?
  {
    var h := DefaultHooks(greetingTime);
    assert h.ehlo(m).lines[0] == "250-2.0.0 " + EhloName(m) + " Hello";
  }

  /** With a password hook that knows no user, AUTH never records one. */
  lemma NoPasswordsNoLogin(ctx: Ctx, s: Session, arg: string)
    requires s.status.Open?
    requires forall u :: ctx.hooks.password(u).None?
    ensures HandleAuth(ctx, s, arg).0.mail.authenticated == s.mail.authenticated
  {
    AuthOutcome(ctx, s, arg);
  }

  // ----- The message body over several lines -----

  /** The lines a stretch of events delivers, none of them lost to an I/O error. */
  function BodyLines(events: seq<Event>): (lines: seq<string>)
    requires forall k :: 0 <= k < |events| ==> RecvText(events[k]).Some?
    ensures |lines| == |events|
    ensures forall k :: 0 <= k < |events| ==> lines[k] == RecvText(events[k]).value
  {
    if |events| == 0 then [] else [RecvText(events[0]).value] + BodyLines(events[1..])
  }

  /** The session with lines appended to its body. */
  function Appended(s: Session, lines: seq<string>): (t: Session)
    ensures t.mail.data.Some? && t.mail.data.value.text == BodyOf(s.mail).text + lines
    ensures t.mail.data.value.accepted == BodyOf(s.mail).accepted
  {
    s.(mail := s.mail.(data := Some(BodyOf(s.mail).(text := BodyOf(s.mail).text + lines))))
  }

  lemma AppendedTwice(s: Session, a: seq<string>, b: seq<string>)
    ensures Appended(Appended(s, a), b) == Appended(s, a + b)
  {
    assert (BodyOf(s.mail).text + a) + b == BodyOf(s.mail).text + (a + b);
  }

  /** While collecting, a stretch of lines none of which is `.` is appended to the body
      in order, nothing is written, and the session keeps collecting; a closed
      connection in the middle of a body thus adds a `QUIT` line instead of ending it. */
  lemma {:induction false} CollectRun(ctx: Ctx, s: Session, events: seq<Event>)
    requires s.status.Open? && s.mode == Collecting && s.mail.data.Some?
    requires forall k :: 0 <= k < |events| ==> RecvText(events[k]).Some? && RecvText(events[k]).value != "."
    ensures Receiver.Run(ctx, s, events) == (Appended(s, BodyLines(events)), [])
    decreases |events|
  {
    if |events| == 0 {
      assert BodyOf(s.mail).text + [] == BodyOf(s.mail).text;
    } else {
      var t := RecvText(events[0]).value;
      var st := Step(ctx, s, events[0]);
      RunStep(ctx, s, events);
      CollectKeepsLine(ctx, s, events[0]);
      assert st.next == Appended(s, [t]);
      assert st.sent == [];
      CollectRun(ctx, st.next, events[1..]);
      AppendedTwice(s, [t], BodyLines(events[1..]));
      assert BodyLines(events) == [t] + BodyLines(events[1..]);
      var none: seq<string> := [];
      assert none + none == none;
    }
  }
}
