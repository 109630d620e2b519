/** Slot accounting around the sessions, under any interleaving of admissions and closes, and the fan-out of
    one batch to every session in the roster. */
module FeedServer {
  import opened FeedRecords
  import opened SessionProtocol
  import Sessions = FeedSession

  /** `counted` admissions hold a slot but are not rostered yet; `overshot` ones went past the limit and are
      about to step back; `releasing` closes have left the roster but not returned the slot; `orphaned`
      sessions were in the roster when the server stopped. `returned` and `enrolled` are history. */
  datatype Slots<!T> = Slots(
    admitted: int, roster: seq<T>, stopped: bool,
    counted: nat, overshot: nat, releasing: nat, orphaned: nat,
    enrolled: set<T>, returned: set<T>)

  datatype SlotStep<!T> =
    | CountIn
    | StepBack
    | SetupFails
    | Enroll(session: T)
    | Remove(session: T)
    | Release
    | SetStopped
    | ClearRoster

  function Without<T(==)>(s: seq<T>, x: T): seq<T> {
    if s == [] then [] else if s[0] == x then s[1..] else [s[0]] + Without(s[1..], x)
  }

  predicate SlotEnabled<T(==)>(s: Slots<T>, step: SlotStep<T>) {
    match step
    case CountIn => true
    case StepBack => s.overshot > 0
    case SetupFails => s.counted > 0
    case Enroll(session) => s.counted > 0 && session !in s.enrolled
    case Remove(_) => true
    case Release => s.releasing > 0
    case SetStopped => true
    case ClearRoster => s.stopped
  }

  function SlotApply<T(==)>(max: nat, s: Slots<T>, step: SlotStep<T>): Slots<T>
    requires SlotEnabled(s, step)
  {
    match step
    case CountIn =>
      if s.admitted + 1 > max then s.(admitted := s.admitted + 1, overshot := s.overshot + 1)
      else s.(admitted := s.admitted + 1, counted := s.counted + 1)
    case StepBack => s.(admitted := s.admitted - 1, overshot := s.overshot - 1)
    case SetupFails => s.(admitted := s.admitted - 1, counted := s.counted - 1)
    case Enroll(session) =>
      if s.stopped then s.(admitted := s.admitted - 1, counted := s.counted - 1, enrolled := s.enrolled + {session})
      else s.(roster := s.roster + [session], counted := s.counted - 1, enrolled := s.enrolled + {session})
    case Remove(session) =>
      if session in s.roster
      then s.(roster := Without(s.roster, session), releasing := s.releasing + 1, returned := s.returned + {session})
      else s
    case Release => s.(admitted := s.admitted - 1, releasing := s.releasing - 1)
    case SetStopped => s.(stopped := true)
    case ClearRoster => s.(orphaned := s.orphaned + |s.roster|, roster := [])
  }

  predicate Distinct<T(==)>(s: seq<T>) {
    forall i, j | 0 <= i < j < |s| :: s[i] != s[j]
  }

  /** Every unit of the counter is one place someone holds, and the places never exceed the limit. */
  ghost predicate SlotInv<T>(max: nat, s: Slots<T>) {
    && s.admitted == |s.roster| + s.counted + s.overshot + s.releasing + s.orphaned
    && |s.roster| + s.counted + s.releasing + s.orphaned <= max
    && Distinct(s.roster)
    && (forall i | 0 <= i < |s.roster| :: s.roster[i] in s.enrolled && s.roster[i] !in s.returned)
    && s.returned <= s.enrolled
    && (!s.stopped ==> s.orphaned == 0)
  }

  lemma {:induction false} WithoutFacts<T>(s: seq<T>, x: T)
    requires Distinct(s) && x in s
    ensures var w := Without(s, x);
      && |w| == |s| - 1 && Distinct(w) && x !in w
      && (forall i | 0 <= i < |w| :: w[i] in s)
  {
    var k :| 0 <= k < |s| && s[k] == x;
    assert x !in s[..k];
    WithoutAt(s, x, k);
    var w := s[..k] + s[k + 1..];
    forall i | 0 <= i < |w| ensures w[i] in s && w[i] != x {
      assert w[i] == s[if i < k then i else i + 1];
    }
    forall i, j | 0 <= i < j < |w| ensures w[i] != w[j] {
      assert w[i] == s[if i < k then i else i + 1];
      assert w[j] == s[if j < k then j else j + 1];
    }
  }

  /** No interleaving of admissions and closes, repeated closes included, breaks the accounting, and a
      session's slot is returned at most once: its first removal is its last. */
  lemma SlotStepKeeps<T>(max: nat, s: Slots<T>, step: SlotStep<T>)
    requires SlotInv(max, s) && SlotEnabled(s, step)
    ensures SlotInv(max, SlotApply(max, s, step))
    ensures step.Remove? && step.session in s.returned ==> SlotApply(max, s, step) == s
  {
    match step
    case Remove(session) => {
      if session in s.roster {
        WithoutFacts(s.roster, session);
        var w := Without(s.roster, session);
        forall i | 0 <= i < |w| ensures w[i] in s.enrolled && w[i] !in s.returned + {session} {
          assert w[i] in s.roster && w[i] in w;
        }
      }
    }
    case _ =>
  }

  ghost predicate SlotsReach<T>(max: nat, s: Slots<T>, steps: seq<SlotStep<T>>, t: Slots<T>)
    decreases |steps|
  {
    if steps == [] then s == t
    else SlotEnabled(s, steps[0]) && SlotsReach(max, SlotApply(max, s, steps[0]), steps[1..], t)
  }

  lemma {:induction false} SlotInvAlongRun<T>(max: nat, s: Slots<T>, steps: seq<SlotStep<T>>, t: Slots<T>)
    requires SlotInv(max, s) && SlotsReach(max, s, steps, t)
    ensures SlotInv(max, t)
    decreases |steps|
  {
    if steps != [] {
      SlotStepKeeps(max, s, steps[0]);
      SlotInvAlongRun(max, SlotApply(max, s, steps[0]), steps[1..], t);
    }
  }

  function NoSlots<T>(): Slots<T> {
    Slots(0, [], false, 0, 0, 0, 0, {}, {})
  }

  /** Until the server stops, the roster never exceeds the limit, holds no session twice, and once nothing is
      in flight the counter is exactly the roster: no slot is ever leaked or handed out twice. */
  lemma RosterWithinLimit<T>(max: nat, steps: seq<SlotStep<T>>, s: Slots<T>)
    requires SlotsReach(max, NoSlots(), steps, s) && !s.stopped
    ensures |s.roster| <= max && Distinct(s.roster)
    ensures s.counted == s.overshot == s.releasing == 0 ==> s.admitted == |s.roster|
    ensures s.admitted == |s.roster| + s.counted + s.overshot + s.releasing
  {
    SlotInvAlongRun(max, NoSlots(), steps, s);
  }

  /** Admissions are serial, so one that is turned away met a server with every place taken. */
  lemma TurnedAwayOnlyWhenFull<T>(max: nat, s: Slots<T>)
    requires SlotInv(max, s) && !s.stopped && s.overshot == 0
    ensures SlotApply(max, s, CountIn).overshot > 0 <==> |s.roster| + s.counted + s.releasing == max
  {
  }

  // ---- the server object ----

  class FeedServer {
    const maxSessions: nat
    var admitted: int
    var stopped: bool
    var sessions: seq<Sessions.FeedSession>

    ghost var counted: nat
    ghost var overshot: nat
    ghost var releasing: nat
    ghost var orphaned: nat
    ghost var enrolled: set<Sessions.FeedSession>
    ghost var returned: set<Sessions.FeedSession>

    ghost function View(): Slots<Sessions.FeedSession>
      reads this
    {
      Slots(admitted, sessions, stopped, counted, overshot, releasing, orphaned, enrolled, returned)
    }

    constructor (maxSessions: nat)
      ensures this.maxSessions == maxSessions && View() == NoSlots()
    {
      this.maxSessions := maxSessions;
      admitted, stopped, sessions := 0, false, [];
      counted, overshot, releasing, orphaned, enrolled, returned := 0, 0, 0, 0, {}, {};
    }

    /** The increment and its comparison, which decide one admission at a time. */
    method TryCount() returns (within: bool)
      requires SlotInv(maxSessions, View())
      modifies this`admitted, this`counted, this`overshot
      ensures View() == SlotApply(maxSessions, old(View()), CountIn) && SlotInv(maxSessions, View())
      ensures within == (admitted <= maxSessions)
    {
      SlotStepKeeps(maxSessions, View(), CountIn);
      admitted := admitted + 1;
      within := admitted <= maxSessions;
      if within {
        counted := counted + 1;
      } else {
        overshot := overshot + 1;
      }
    }

    method StepBackOut()
      requires SlotInv(maxSessions, View()) && overshot > 0
      modifies this`admitted, this`overshot
      ensures View() == SlotApply(maxSessions, old(View()), StepBack) && SlotInv(maxSessions, View())
    {
      SlotStepKeeps(maxSessions, View(), StepBack);
      admitted := admitted - 1;
      overshot := overshot - 1;
    }

    method EnrollSession(session: Sessions.FeedSession)
      requires SlotInv(maxSessions, View()) && counted > 0 && session !in enrolled
      modifies this`admitted, this`sessions, this`counted, this`enrolled
      ensures View() == SlotApply(maxSessions, old(View()), Enroll(session)) && SlotInv(maxSessions, View())
    {
      SlotStepKeeps(maxSessions, View(), Enroll(session));
      if stopped {
        admitted := admitted - 1;
      } else {
        sessions := sessions + [session];
      }
      counted := counted - 1;
      enrolled := enrolled + {session};
    }

    /** Setting a session up threw: its slot goes back. */
    method UndoCount()
      requires SlotInv(maxSessions, View()) && counted > 0
      modifies this`admitted, this`counted
      ensures View() == SlotApply(maxSessions, old(View()), SetupFails) && SlotInv(maxSessions, View())
    {
      SlotStepKeeps(maxSessions, View(), SetupFails);
      admitted := admitted - 1;
      counted := counted - 1;
    }

    /** The place of a session in the roster, or none. */
    method IndexOf(session: Sessions.FeedSession) returns (index: int)
      ensures -1 <= index < |sessions|
      ensures index < 0 <==> session !in sessions
      ensures index >= 0 ==> sessions[index] == session && session !in sessions[..index]
    {
      for i := 0 to |sessions|
        invariant session !in sessions[..i]
      {
        if sessions[i] == session {
          return i;
        }
      }
      index := -1;
    }

    method RemoveFromRoster(session: Sessions.FeedSession) returns (removed: bool)
      requires SlotInv(maxSessions, View())
      modifies this`sessions, this`releasing, this`returned
      ensures View() == SlotApply(maxSessions, old(View()), Remove(session)) && SlotInv(maxSessions, View())
      ensures removed == (session in old(sessions))
    {
      SlotStepKeeps(maxSessions, View(), Remove(session));
      var index := IndexOf(session);
      removed := index >= 0;
      if removed {
        WithoutAt(sessions, session, index);
        sessions := sessions[..index] + sessions[index + 1..];
        releasing := releasing + 1;
        returned := returned + {session};
      }
    }

    method ReleaseSlot()
      requires SlotInv(maxSessions, View()) && releasing > 0
      modifies this`admitted, this`releasing
      ensures View() == SlotApply(maxSessions, old(View()), Release) && SlotInv(maxSessions, View())
    {
      SlotStepKeeps(maxSessions, View(), Release);
      admitted := admitted - 1;
      releasing := releasing - 1;
    }

    /** However often a session reports itself closed, its slot comes back once. */
    method OnSessionClosed(session: Sessions.FeedSession)
      requires SlotInv(maxSessions, View())
      modifies this`admitted, this`sessions, this`releasing, this`returned
      ensures SlotInv(maxSessions, View())
      ensures session !in sessions && sessions == Without(old(sessions), session)
      ensures session in old(sessions) ==> admitted == old(admitted) - 1 && |sessions| == old(|sessions|) - 1
      ensures session !in old(sessions) ==> admitted == old(admitted) && sessions == old(sessions)
    {
      if session in sessions {
        WithoutFacts(sessions, session);
      } else {
        WithoutNone(sessions, session);
      }
      var removed := RemoveFromRoster(session);
      if removed {
        ReleaseSlot();
      }
    }

    /** An admission that no other thread cuts into, where setting the session up or starting it may throw: the
        session is rostered and started if and only if there was a place and neither did, and otherwise nothing
        is left behind. */
    method Admit(session: Sessions.FeedSession, setupFails: bool, startFails: bool) returns (accepted: bool)
      requires SlotInv(maxSessions, View()) && session !in enrolled && overshot == 0
      requires session.Valid() && !session.started && session.handler != Recovering
      modifies this, session
      ensures SlotInv(maxSessions, View()) && session.Valid()
      ensures accepted <==> !old(stopped) && old(admitted) < maxSessions && !setupFails && !startFails
      ensures sessions == if accepted then old(sessions) + [session] else old(sessions)
      ensures admitted == if accepted then old(admitted) + 1 else old(admitted)
      ensures accepted ==> session.started && session.pipe == [Opening]
    {
      if stopped {
        return false;
      }
      var within := TryCount();
      if !within {
        StepBackOut();
        return false;
      }
      if setupFails {
        UndoCount();
        return false;
      }
      EnrollSession(session);
      if startFails {
        WithoutLast(old(sessions), session);
        OnSessionClosed(session);
        return false;
      }
      session.Start();
      accepted := true;
    }

    /** The first `k` sessions have been offered the batch, the others are as they were. */
    ghost predicate Offered(was: seq<Session>, batch: seq<FeedRecord>, k: nat)
      reads this, sessions
    {
      && |was| == |sessions|
      && forall i | 0 <= i < |sessions| ::
           sessions[i].IsIn(if i < k then sessions[i].AfterTryPublish(was[i], batch) else was[i])
    }

    method Offer(batch: seq<FeedRecord>, k: nat, ghost was: seq<Session>) returns (queued: bool)
      requires Distinct(sessions) && k < |sessions| && Offered(was, batch, k)
      modifies sessions[k]
      ensures Offered(was, batch, k + 1) && queued == Takes(was[k], batch)
    {
      queued := sessions[k].TryPublish(batch);
    }

    method OfferToAll(batch: seq<FeedRecord>, ghost was: seq<Session>) returns (reached: nat)
      requires Distinct(sessions) && Offered(was, batch, 0)
      modifies set i | 0 <= i < |sessions| :: sessions[i]
      ensures sessions == old(sessions) && Offered(was, batch, |sessions|)
      ensures reached == Takers(was, batch)
    {
      reached := 0;
      for k := 0 to |sessions|
        invariant Offered(was, batch, k)
        invariant reached == Takers(was[..k], batch)
      {
        var queued := Offer(batch, k, was);
        OneMoreTaker(was, k, batch);
        if queued {
          reached := reached + 1;
        }
      }
      assert was[..|sessions|] == was;
    }

    lemma OfferedToNone(batch: seq<FeedRecord>)
      requires forall i | 0 <= i < |sessions| :: sessions[i].Valid()
      ensures Offered(Views(), batch, 0)
      ensures batch == [] ==> Offered(Views(), batch, |sessions|)
    {
    }

    /** Fans a batch out: every session in the roster does exactly what it would have done alone, whatever
        state the others are in, its own recovery included. */
    method Publish(batch: seq<FeedRecord>) returns (reached: nat)
      requires Distinct(sessions) && forall i | 0 <= i < |sessions| :: sessions[i].Valid()
      modifies set i | 0 <= i < |sessions| :: sessions[i]
      ensures sessions == old(sessions) && Offered(old(Views()), batch, |sessions|)
      ensures reached == Takers(old(Views()), batch)
    {
      ghost var was := Views();
      OfferedToNone(batch);
      if batch == [] {
        NoTakers(was);
        return 0;
      }
      reached := OfferToAll(batch, was);
    }

    /** The roster's sessions as they are. */
    ghost function Views(): (views: seq<Session>)
      reads this, sessions
      ensures |views| == |sessions| && forall i | 0 <= i < |sessions| :: views[i] == sessions[i].View()
    {
      seq(|sessions|, i requires 0 <= i < |sessions| reads this, sessions => sessions[i].View())
    }
  }

  predicate Takes(s: Session, batch: seq<FeedRecord>) {
    batch != [] && s.gate.started && s.gate.phase == Running && AllTicks(batch)
  }

  /** How many sessions are in a state to take the batch. */
  function Takers(views: seq<Session>, batch: seq<FeedRecord>): nat {
    if views == [] then 0
    else Takers(views[..|views| - 1], batch) + (if Takes(views[|views| - 1], batch) then 1 else 0)
  }

  lemma OneMoreTaker(views: seq<Session>, k: nat, batch: seq<FeedRecord>)
    requires k < |views|
    ensures Takers(views[..k + 1], batch) == Takers(views[..k], batch) + (if Takes(views[k], batch) then 1 else 0)
  {
    assert views[..k + 1][..k] == views[..k];
  }

  lemma {:induction false} NoTakers(views: seq<Session>)
    ensures Takers(views, []) == 0
  {
    if views != [] {
      NoTakers(views[..|views| - 1]);
    }
  }

  lemma {:induction false} WithoutNone<T>(s: seq<T>, x: T)
    requires x !in s
    ensures Without(s, x) == s
  {
    if s != [] {
      WithoutNone(s[1..], x);
    }
  }

  lemma WithoutLast<T>(s: seq<T>, x: T)
    requires x !in s
    ensures Without(s + [x], x) == s
  {
    WithoutAt(s + [x], x, |s|);
    assert (s + [x])[..|s|] == s && (s + [x])[|s| + 1..] == [];
  }

  lemma {:induction false} WithoutAt<T>(s: seq<T>, x: T, index: nat)
    requires index < |s| && s[index] == x && x !in s[..index]
    ensures Without(s, x) == s[..index] + s[index + 1..]
  {
    if index > 0 {
      assert s[0] in s[..index];
      assert s[1..][..index - 1] == s[..index][1..];
      WithoutAt(s[1..], x, index - 1);
      assert [s[0]] + (s[1..][..index - 1] + s[1..][index..]) == s[..index] + s[index + 1..];
    }
  }
}
