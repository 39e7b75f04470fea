/**
  Host sessions: one record per host, changed only by compare-and-swap. The record
  transitions are pure; `World` adds a store whose writers may act on any read they
  ever made and whose writes may land late, repeatedly or never.
 */
module HostSession {
  import opened Prelude

  datatype Record =
    | Active(session: nat, epoch: nat)
    | Challenged(session: nat, epoch: nat, nonce: nat, challengedAt: nat)
    | Revoked(oldSession: nat, epoch: nat, nonce: nat)

  // ---- Record transitions ------------------------------------------------

  function Initial(session: nat): Option<Record> {
    if session == 0 then None else Some(Active(session, 1))
  }

  function Challenge(r: Record, nonce: nat, at: nat): Option<Record> {
    match r
    case Active(session, epoch) => if nonce == 0 then None else Some(Challenged(session, epoch, nonce, at))
    case _ => None
  }

  function Defend(r: Record, session: nat, nonce: nat): Option<Record> {
    match r
    case Challenged(challenged, epoch, challengeNonce, _) =>
      if session != challenged || nonce != challengeNonce then None else Some(Active(session, epoch))
    case _ => None
  }

  /** The next epoch, if it still fits in 64 bits. */
  function NextEpoch(epoch: nat): Option<nat> {
    if epoch + 1 < U64_LIMIT then Some(epoch + 1) else None
  }

  function Retire(r: Record, session: nat, nonce: nat): Option<Record> {
    match r
    case Active(active, epoch) =>
      if session != active || nonce == 0 || NextEpoch(epoch).None? then None
      else Some(Revoked(session, NextEpoch(epoch).value, nonce))
    case _ => None
  }

  function Revoke(r: Record, nonce: nat): Option<Record> {
    match r
    case Challenged(session, epoch, challengeNonce, _) =>
      if nonce != challengeNonce || NextEpoch(epoch).None? then None
      else Some(Revoked(session, NextEpoch(epoch).value, nonce))
    case _ => None
  }

  function Activate(r: Record, session: nat): Option<Record> {
    match r
    case Revoked(_, epoch, _) => if session == 0 then None else Some(Active(session, epoch))
    case _ => None
  }

  /** What decoding a stored record demands. */
  predicate Decodable(r: Record) {
    && 0 < r.epoch < U64_LIMIT
    && match r
       case Active(session, _) => session != 0
       case Challenged(session, _, nonce, _) => session != 0 && nonce != 0
       case Revoked(oldSession, _, nonce) => oldSession != 0 && nonce != 0
  }

  datatype Op =
    | DoInitial(session: nat)
    | DoChallenge(nonce: nat, at: nat)
    | DoDefend(session: nat, nonce: nat)
    | DoRetire(session: nat, nonce: nat)
    | DoRevoke(nonce: nat)
    | DoActivate(session: nat)

  /** What a client that read `read` would write. */
  function Outcome(read: Option<Record>, op: Op): Option<Record> {
    match read
    case None => if op.DoInitial? then Initial(op.session) else None
    case Some(r) =>
      match op
      case DoInitial(_) => None
      case DoChallenge(nonce, at) => Challenge(r, nonce, at)
      case DoDefend(session, nonce) => Defend(r, session, nonce)
      case DoRetire(session, nonce) => Retire(r, session, nonce)
      case DoRevoke(nonce) => Revoke(r, nonce)
      case DoActivate(session) => Activate(r, session)
  }

  /** Who may move a record, and to what. */
  lemma WhoMayMove(r: Record, s: nat, n: nat, at: nat)
    ensures Outcome(None, DoInitial(s)) == (if s == 0 then None else Some(Active(s, 1)))
    ensures r.Active? ==>
              && Outcome(Some(r), DoChallenge(n, at))
                 == (if n == 0 then None else Some(Challenged(r.session, r.epoch, n, at)))
              && Outcome(Some(r), DoRetire(s, n))
                 == (if s == r.session && n != 0 && r.epoch + 1 < U64_LIMIT
                     then Some(Revoked(s, r.epoch + 1, n)) else None)
    ensures r.Challenged? ==>
              && Outcome(Some(r), DoDefend(s, n))
                 == (if s == r.session && n == r.nonce then Some(Active(s, r.epoch)) else None)
              && Outcome(Some(r), DoRevoke(n))
                 == (if n == r.nonce && r.epoch + 1 < U64_LIMIT then Some(Revoked(r.session, r.epoch + 1, n)) else None)
    ensures r.Revoked? ==> Outcome(Some(r), DoActivate(s)) == (if s == 0 then None else Some(Active(s, r.epoch)))
    ensures !r.Active? ==> Outcome(Some(r), DoChallenge(n, at)).None? && Outcome(Some(r), DoRetire(s, n)).None?
    ensures !r.Challenged? ==> Outcome(Some(r), DoDefend(s, n)).None? && Outcome(Some(r), DoRevoke(n)).None?
    ensures !r.Revoked? ==> Outcome(Some(r), DoActivate(s)).None?
  {
  }

  // ---- The store and its clients ------------------------------------------

  datatype Version = Version(number: nat, record: Record)

  datatype Write = Write(expected: Option<nat>, record: Record)

  /** Every version the record ever had, oldest first, and every write that was
      ever sent and may still land. */
  datatype World = World(history: seq<Version>, sent: set<Write>)

  const START := World([], {})

  /** What a client that last looked when there were `seen` versions holds. */
  function ReadAt(w: World, seen: nat): Option<Record>
    requires seen <= |w.history|
  {
    if seen == 0 then None else Some(w.history[seen - 1].record)
  }

  function ExpectedAt(w: World, seen: nat): Option<nat>
    requires seen <= |w.history|
  {
    if seen == 0 then None else Some(w.history[seen - 1].number)
  }

  datatype Step = Send(seen: nat, op: Op) | Land(write: Write, number: nat)

  predicate Enabled(w: World, step: Step) {
    match step
    case Send(seen, op) => seen <= |w.history| && Outcome(ReadAt(w, seen), op).Some?
    case Land(write, number) =>
      write in w.sent && (w.history != [] ==> number > w.history[|w.history| - 1].number)
  }

  function Apply(w: World, step: Step): World
    requires Enabled(w, step)
  {
    match step
    case Send(seen, op) => w.(sent := w.sent + {Write(ExpectedAt(w, seen), Outcome(ReadAt(w, seen), op).value)})
    case Land(write, number) =>
      if write.expected == ExpectedAt(w, |w.history|)
      then w.(history := w.history + [Version(number, write.record)])
      else w
  }

  predicate Legal(w: World, steps: seq<Step>)
    decreases |steps|
  {
    steps == [] || (Enabled(w, steps[0]) && Legal(Apply(w, steps[0]), steps[1..]))
  }

  function Run(w: World, steps: seq<Step>): World
    requires Legal(w, steps)
    decreases |steps|
  {
    if steps == [] then w else Run(Apply(w, steps[0]), steps[1..])
  }

  // ---- Stale writers cannot break the chain -----------------------------------

  /** Version `i` follows from the version before it by one transition. */
  ghost predicate Follows(w: World, i: nat)
    requires i < |w.history|
  {
    exists op :: Outcome(ReadAt(w, i), op) == Some(w.history[i].record)
  }

  ghost predicate Based(w: World, write: Write) {
    exists seen: nat, op :: seen <= |w.history| && write.expected == ExpectedAt(w, seen)
                      && Outcome(ReadAt(w, seen), op) == Some(write.record)
  }

  ghost predicate Inv(w: World) {
    && (forall i, j :: 0 <= i < j < |w.history| ==> w.history[i].number < w.history[j].number)
    && (forall i :: 0 <= i < |w.history| ==> Follows(w, i))
    && (forall write :: write in w.sent ==> Based(w, write))
  }

  lemma SendKeeps(w: World, step: Step)
    requires Inv(w) && step.Send? && Enabled(w, step)
    ensures Inv(Apply(w, step))
  {
    var w' := Apply(w, step);
    forall write | write in w'.sent ensures Based(w', write) {
      if write in w.sent {
        var seen: nat, op :| seen <= |w.history| && write.expected == ExpectedAt(w, seen)
          && Outcome(ReadAt(w, seen), op) == Some(write.record);
        assert ExpectedAt(w', seen) == ExpectedAt(w, seen) && ReadAt(w', seen) == ReadAt(w, seen);
      } else {
        assert write.expected == ExpectedAt(w', step.seen)
          && Outcome(ReadAt(w', step.seen), step.op) == Some(write.record);
      }
    }
    forall i | 0 <= i < |w'.history| ensures Follows(w', i) {
      assert Follows(w, i);
      var op :| Outcome(ReadAt(w, i), op) == Some(w.history[i].record);
      assert Outcome(ReadAt(w', i), op) == Some(w'.history[i].record);
    }
  }

  lemma OnlyTheNewestMatches(w: World, seen: nat)
    requires Inv(w) && seen <= |w.history|
    ensures ExpectedAt(w, seen) == ExpectedAt(w, |w.history|) ==> seen == |w.history|
  {
    if 0 < seen < |w.history| {
      assert w.history[seen - 1].number < w.history[|w.history| - 1].number;
    }
  }

  /** A write can only land on the version it was computed from. */
  lemma LandsOnItsBase(w: World, write: Write)
    requires Inv(w) && write in w.sent && write.expected == ExpectedAt(w, |w.history|)
    ensures exists op :: Outcome(ReadAt(w, |w.history|), op) == Some(write.record)
  {
    assert Based(w, write);
    var seen: nat, op :| seen <= |w.history| && write.expected == ExpectedAt(w, seen)
      && Outcome(ReadAt(w, seen), op) == Some(write.record);
    OnlyTheNewestMatches(w, seen);
  }

  lemma LandKeeps(w: World, step: Step)
    requires Inv(w) && step.Land? && Enabled(w, step)
    ensures Inv(Apply(w, step))
  {
    var w' := Apply(w, step);
    if w' != w {
      LandsOnItsBase(w, step.write);
      forall i | 0 <= i < |w'.history| ensures Follows(w', i) {
        if i < |w.history| {
          assert Follows(w, i);
          var op :| Outcome(ReadAt(w, i), op) == Some(w.history[i].record);
          assert Outcome(ReadAt(w', i), op) == Some(w'.history[i].record);
        } else {
          var op :| Outcome(ReadAt(w, |w.history|), op) == Some(step.write.record);
          assert Outcome(ReadAt(w', i), op) == Some(w'.history[i].record);
        }
      }
      forall write | write in w'.sent ensures Based(w', write) {
        var seen: nat, op :| seen <= |w.history| && write.expected == ExpectedAt(w, seen)
          && Outcome(ReadAt(w, seen), op) == Some(write.record);
        assert ExpectedAt(w', seen) == ExpectedAt(w, seen) && ReadAt(w', seen) == ReadAt(w, seen);
      }
    }
  }

  lemma {:induction false} RunKeeps(w: World, steps: seq<Step>)
    requires Inv(w) && Legal(w, steps)
    ensures Inv(Run(w, steps))
    ensures w.history <= Run(w, steps).history
    decreases |steps|
  {
    if steps != [] {
      if steps[0].Send? { SendKeeps(w, steps[0]); } else { LandKeeps(w, steps[0]); }
      RunKeeps(Apply(w, steps[0]), steps[1..]);
    }
  }

  // ---- Epochs and sessions ------------------------------------------------------

  /** One transition keeps the epoch, or raises it by one and then revokes. */
  lemma OneStep(r: Record, op: Op, next: Record)
    requires Outcome(Some(r), op) == Some(next)
    ensures next.epoch == r.epoch + (if next.Revoked? then 1 else 0)
    ensures next.Revoked? <==> op.DoRetire? || op.DoRevoke?
    ensures !r.Revoked? && !next.Revoked? ==> next.session == r.session
    ensures r.Revoked? ==> next.Active?
    ensures Decodable(r) ==> Decodable(next)
  {
  }

  lemma {:induction false} HistoryRises(w: World, i: nat, j: nat)
    requires Inv(w) && i <= j < |w.history|
    ensures w.history[i].record.epoch <= w.history[j].record.epoch
    decreases j
  {
    if i < j {
      HistoryRises(w, i, j - 1);
      assert Follows(w, j);
      var op :| Outcome(ReadAt(w, j), op) == Some(w.history[j].record);
      OneStep(w.history[j - 1].record, op, w.history[j].record);
    }
  }

  lemma {:induction false} SameEpochSameSession(w: World, i: nat, j: nat)
    requires Inv(w) && i <= j < |w.history|
    requires w.history[i].record.epoch == w.history[j].record.epoch
    requires !w.history[i].record.Revoked?
    ensures !w.history[j].record.Revoked? && w.history[i].record.session == w.history[j].record.session
    decreases j
  {
    if i < j {
      HistoryRises(w, i, j - 1);
      assert Follows(w, j);
      var op :| Outcome(ReadAt(w, j), op) == Some(w.history[j].record);
      OneStep(w.history[j - 1].record, op, w.history[j].record);
      SameEpochSameSession(w, i, j - 1);
    }
  }

  lemma {:induction false} AllDecodable(w: World, i: nat)
    requires Inv(w) && i < |w.history|
    ensures Decodable(w.history[i].record)
    decreases i
  {
    assert Follows(w, i);
    var op :| Outcome(ReadAt(w, i), op) == Some(w.history[i].record);
    if i > 0 {
      AllDecodable(w, i - 1);
      OneStep(w.history[i - 1].record, op, w.history[i].record);
    }
  }

  /** In every run: epochs never fall and rise by one exactly where a session is
      retired or revoked; no epoch ever has two sessions; and every stored record
      is one that decoding accepts. */
  lemma EveryRunOrdersEpochs(steps: seq<Step>, i: nat, j: nat)
    requires Legal(START, steps) && i < j < |Run(START, steps).history|
    ensures var h := Run(START, steps).history;
            && h[i].record.epoch <= h[j].record.epoch
            && h[i + 1].record.epoch == h[i].record.epoch + (if h[i + 1].record.Revoked? then 1 else 0)
            && (h[i].record.epoch == h[j].record.epoch && !h[i].record.Revoked? ==>
                  !h[j].record.Revoked? && h[i].record.session == h[j].record.session)
            && Decodable(h[i].record) && Decodable(h[j].record)
  {
    RunKeeps(START, steps);
    var w := Run(START, steps);
    HistoryRises(w, i, j);
    AllDecodable(w, i);
    AllDecodable(w, j);
    assert Follows(w, i + 1);
    var op :| Outcome(ReadAt(w, i + 1), op) == Some(w.history[i + 1].record);
    OneStep(w.history[i].record, op, w.history[i + 1].record);
    if w.history[i].record.epoch == w.history[j].record.epoch && !w.history[i].record.Revoked? {
      SameEpochSameSession(w, i, j);
    }
  }

  /** The record may follow the other in a history: a challenge of the same session, its
      defence, a retirement, a revocation under the challenge's own nonce, or the next
      session's activation. */
  predicate MayFollow(r: Record, next: Record) {
    match next
    case Active(session, epoch) =>
      && epoch == r.epoch
      && (r.Challenged? ==> session == r.session) && (r.Revoked? ==> session != 0) && !r.Active?
    case Challenged(session, epoch, nonce, _) => r.Active? && session == r.session && epoch == r.epoch && nonce != 0
    case Revoked(session, epoch, nonce) =>
      && !r.Revoked? && session == r.session && epoch == r.epoch + 1 && epoch < U64_LIMIT
      && (if r.Challenged? then nonce == r.nonce else nonce != 0)
  }

  lemma TransitionsAreThese(r: Record, next: Record)
    ensures (exists op :: Outcome(Some(r), op) == Some(next)) <==> MayFollow(r, next)
  {
    if MayFollow(r, next) {
      var op := match next
        case Active(session, _) => if r.Challenged? then DoDefend(session, r.nonce) else DoActivate(session)
        case Challenged(_, _, nonce, at) => DoChallenge(nonce, at)
        case Revoked(session, _, nonce) => if r.Challenged? then DoRevoke(nonce) else DoRetire(session, nonce);
      assert Outcome(Some(r), op) == Some(next);
    }
  }

  /** In every run the first record starts a session at epoch 1, and every later one may
      follow the one before it; nothing else may, and all that may can be written. */
  lemma EveryRunFollowsTheTable(steps: seq<Step>, i: nat)
    requires Legal(START, steps) && i < |Run(START, steps).history|
    ensures var h := Run(START, steps).history;
            if i == 0 then h[0].record.Active? && h[0].record.session != 0 && h[0].record.epoch == 1
            else MayFollow(h[i - 1].record, h[i].record)
  {
    RunKeeps(START, steps);
    var w := Run(START, steps);
    assert Follows(w, i);
    if i > 0 { TransitionsAreThese(w.history[i - 1].record, w.history[i].record); }
  }

  /** Once an epoch is passed it is over: whatever happens afterwards, no version
      written later carries it and none is the retirement or defence of it. */
  lemma PassedEpochIsOver(steps: seq<Step>, more: seq<Step>, epoch: nat, k: nat)
    requires Legal(START, steps) && Run(START, steps).history != [] && Legal(Run(START, steps), more)
    requires Last(Run(START, steps).history).record.epoch > epoch
    requires |Run(START, steps).history| <= k < |Run(Run(START, steps), more).history|
    ensures var h := Run(Run(START, steps), more).history;
            h[k].record.epoch > epoch && h[k - 1].record.epoch > epoch
  {
    RunKeeps(START, steps);
    var w := Run(START, steps);
    RunKeeps(w, more);
    var after := Run(w, more);
    HistoryRises(after, |w.history| - 1, k);
    HistoryRises(after, |w.history| - 1, k - 1);
  }

  // ---- A draining host gives up its own session ------------------------------------

  /** What a draining host that runs session (`session`, `epoch`) sends. */
  function Relinquish(read: Option<Record>, session: nat, epoch: nat, nonce: nat): Option<Record> {
    if read == Some(Active(session, epoch)) then Retire(Active(session, epoch), session, nonce) else None
  }

  /** If a draining host's write lands, the session that ends is its own, and it
      was the one in force up to that moment. */
  lemma RelinquishEndsOwnSession(steps: seq<Step>, seen: nat, session: nat, epoch: nat, nonce: nat, number: nat)
    requires Legal(START, steps)
    requires seen <= |Run(START, steps).history|
    requires Relinquish(ReadAt(Run(START, steps), seen), session, epoch, nonce).Some?
    requires var w := Run(START, steps);
             var write := Write(ExpectedAt(w, seen), Relinquish(ReadAt(w, seen), session, epoch, nonce).value);
             Enabled(w, Land(write, number)) && Apply(w, Land(write, number)) != w
    ensures Last(Run(START, steps).history).record == Active(session, epoch)
  {
    RunKeeps(START, steps);
    OnlyTheNewestMatches(Run(START, steps), seen);
  }
}
