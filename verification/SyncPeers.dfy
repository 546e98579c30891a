/** One key as two peers see it: its live record and the times of its tombstones. Whether a cycle of two merges
    brings the peers to agree is decided key by key. */
module SyncPeers {
  import opened Options
  import opened SyncTypes

  datatype Record<+F> = Record(fields: F, updatedAt: Time)

  datatype Peer<F> = Peer(row: Option<Record<F>>, deaths: set<Time>)

  /** A record at or below one of the deletions. */
  ghost predicate Dead(deaths: set<Time>, updatedAt: Time) {
    exists d :: d in deaths && d >= updatedAt
  }

  ghost predicate IsEarliest(deaths: set<Time>, d: Time) {
    d in deaths && forall e :: e in deaths ==> d <= e
  }

  lemma EarliestExists(deaths: set<Time>)
    requires deaths != {}
    ensures exists d :: IsEarliest(deaths, d)
  {
    var x :| x in deaths;
    if deaths == {x} {
      assert IsEarliest(deaths, x);
    } else {
      EarliestExists(deaths - {x});
      var y :| IsEarliest(deaths - {x}, y);
      assert forall e :: e in deaths ==> e == x || e in deaths - {x};
      assert IsEarliest(deaths, if x < y then x else y);
    }
  }

  ghost function Earliest(deaths: set<Time>): (d: Time)
    requires deaths != {}
    ensures IsEarliest(deaths, d)
  {
    EarliestExists(deaths);
    var d :| IsEarliest(deaths, d);
    d
  }

  /** The deletions a peer learns: the sender's earliest, and only for a key it knows no deletion of. */
  ghost function Learned<F>(local: Peer<F>, sender: Peer<F>): set<Time> {
    if local.deaths == {} && sender.deaths != {} then {Earliest(sender.deaths)} else {}
  }

  /** Last writer wins; a tie keeps the local record. */
  function Newest<F>(local: Option<Record<F>>, incoming: Record<F>): Option<Record<F>> {
    if local.Some? && local.value.updatedAt >= incoming.updatedAt then local else Some(incoming)
  }

  /** A record comes in, unless one of the deletions covers it. */
  ghost function Taken<F>(local: Option<Record<F>>, incoming: Option<Record<F>>, deaths: set<Time>): Option<Record<F>> {
    if incoming.None? || Dead(deaths, incoming.value.updatedAt) then local else Newest(local, incoming.value)
  }

  /** The deletions a peer knows once it has heard from the other. */
  ghost function Told<F>(x: Peer<F>, y: Peer<F>): set<Time> {
    x.deaths + Learned(x, y)
  }

  /** What is left of a key on a peer after it has merged the sender's full export, when no other
      deletion reaches the record. */
  ghost function Received<F>(local: Peer<F>, sender: Peer<F>): Peer<F> {
    var kept := if local.row.Some? && Dead(Learned(local, sender), local.row.value.updatedAt) then None else local.row;
    Peer(Taken(kept, sender.row, Told(local, sender)), Told(local, sender))
  }

  ghost function Stamp<F>(row: Option<Record<F>>): Option<Time> {
    if row.None? then None else Some(row.value.updatedAt)
  }

  /** The live record is newer than every deletion the peer knows of. */
  ghost predicate Coherent<F>(p: Peer<F>) {
    p.row.Some? ==> !Dead(p.deaths, p.row.value.updatedAt)
  }

  /** `x` holds a record that `y` lacks and will not take because of a deletion `y` knows of, while
      that deletion does not reach `x`: `x` has one of its own for the key, or the one it
      would adopt, the earliest, is older than the record. */
  ghost predicate Stuck<F>(x: Peer<F>, y: Peer<F>) {
    && x.row.Some?
    && y.row.None?
    && Dead(y.deaths, x.row.value.updatedAt)
    && (x.deaths != {} || Earliest(y.deaths) < x.row.value.updatedAt)
  }

  /** Both hold the key with the same stamp and different contents. */
  ghost predicate Tied<F>(x: Peer<F>, y: Peer<F>) {
    x.row.Some? && y.row.Some? && x.row.value.updatedAt == y.row.value.updatedAt && x.row != y.row
  }

  /** The record of `x` is the one the cycle settles on, and `y` gets it from `x`. */
  ghost predicate Sends<F>(x: Peer<F>, y: Peer<F>) {
    && x.row.Some?
    && (if y.row.Some? then y.row.value.updatedAt < x.row.value.updatedAt
        else !Dead(y.deaths, x.row.value.updatedAt))
  }

  ghost predicate SameStamps<F>(x: Peer<F>, y: Peer<F>) {
    Stamp(x.row) == Stamp(y.row) && x.deaths == y.deaths
  }

  /** A full cycle for one key: the master takes in what the slave sent, then the slave
      what the master sent. What is sent may differ from what is held, but not in stamps. */
  lemma CycleAgreesIff<F>(m: Peer<F>, s: Peer<F>, slaveSent: Peer<F>, masterSent: Peer<F>)
    requires Coherent(m) && Coherent(s)
    requires SameStamps(s, slaveSent)
    requires SameStamps(Received(m, slaveSent), masterSent)
    ensures Stamp(Received(m, slaveSent).row) == Stamp(Received(s, masterSent).row) <==> !Stuck(m, s) && !Stuck(s, m)
  {
  }

  /** The contents agree as well exactly when there is no tie between different contents and what
      was sent of the record that wins is what was held. */
  lemma CycleEqualIff<F>(m: Peer<F>, s: Peer<F>, slaveSent: Peer<F>, masterSent: Peer<F>)
    requires Coherent(m) && Coherent(s)
    requires SameStamps(s, slaveSent)
    requires SameStamps(Received(m, slaveSent), masterSent)
    requires Received(m, slaveSent).row == slaveSent.row ==> masterSent.row == slaveSent.row
    ensures Received(m, slaveSent).row == Received(s, masterSent).row <==>
              && !Stuck(m, s)
              && !Stuck(s, m)
              && !Tied(m, s)
              && (Sends(m, s) ==> masterSent.row == m.row)
              && (Sends(s, m) ==> slaveSent.row == s.row)
  {
    CycleAgreesIff(m, s, slaveSent, masterSent);
  }

  // ----- records that the replay of other deletions takes away or stamps anew -----

  lemma ToldBack<F>(m: Peer<F>, s: Peer<F>, row: Option<Record<F>>)
    ensures Told(s, Peer(row, Told(m, s))) == Told(s, m)
  {
  }

  function Restamped<F>(row: Option<Record<F>>, touched: bool, now: Time): Option<Record<F>> {
    if touched && row.Some? then Some(row.value.(updatedAt := now)) else row
  }

  /** `x` is the newer record, and a peer that knows of `deaths` will not take it. */
  ghost predicate Refused<F>(x: Option<Record<F>>, y: Option<Record<F>>, deaths: set<Time>) {
    x.Some? && (y.None? || y.value.updatedAt < x.value.updatedAt) && Dead(deaths, x.value.updatedAt)
  }

  ghost predicate Ties<F>(x: Option<Record<F>>, y: Option<Record<F>>) {
    x.Some? && y.Some? && x.value.updatedAt == y.value.updatedAt && x != y
  }

  /** The clock is ahead of all that the peer holds of the key. */
  ghost predicate Past<F>(p: Peer<F>, now: Time) {
    (p.row.Some? ==> p.row.value.updatedAt < now) && forall d :: d in p.deaths ==> d < now
  }

  /** The incoming record is taken: it is newer, and no deletion covers it. */
  ghost predicate Takes<F>(local: Option<Record<F>>, incoming: Option<Record<F>>, deaths: set<Time>) {
    && incoming.Some?
    && !Dead(deaths, incoming.value.updatedAt)
    && (local.None? || local.value.updatedAt < incoming.value.updatedAt)
  }

  /** As Taken; `relinked` says whether taking the record stamps it anew. */
  ghost function TakenAt<F>(local: Option<Record<F>>, incoming: Option<Record<F>>, deaths: set<Time>, relinked: bool,
                            at: Time): Option<Record<F>> {
    if Takes(local, incoming, deaths) then Restamped(incoming, relinked, at) else local
  }

  lemma TakenIsTakenAt<F>(local: Option<Record<F>>, incoming: Option<Record<F>>, deaths: set<Time>, at: Time)
    ensures Taken(local, incoming, deaths) == TakenAt(local, incoming, deaths, false, at)
  {
  }

  /** One cycle on one key: `keptM` and `keptS` are what the replay of deletions leaves of the two records, `toldM` and
      `toldS` the deletions known after it; `relinkM` and `relinkS` say whether taking the other's record stamps it
      anew, `touchedM` and `touchedS` whether a repair does so to the merged record. */
  datatype Cycled<F> = Cycled(
    m: Peer<F>, s: Peer<F>,
    keptM: Option<Record<F>>, keptS: Option<Record<F>>,
    toldM: set<Time>, toldS: set<Time>,
    relinkM: bool, relinkS: bool,
    touchedM: bool, touchedS: bool,
    now: Time, later: Time
  ) {
    ghost function MergedM(): Option<Record<F>> {
      TakenAt(keptM, s.row, toldM, relinkM, now)
    }

    ghost function FinalM(): Option<Record<F>> {
      Restamped(MergedM(), touchedM, now)
    }

    ghost function MergedS(): Option<Record<F>> {
      TakenAt(keptS, FinalM(), toldS, relinkS, later)
    }

    ghost function FinalS(): Option<Record<F>> {
      Restamped(MergedS(), touchedS, later)
    }

    /** The slave stamps the record at its import: the replay does, or taking the master's record, or the repair. */
    ghost predicate SlaveStamps() {
      || (keptS.Some? && keptS.value.updatedAt == later)
      || (relinkS && Takes(keptS, FinalM(), toldS))
      || touchedS
    }

    ghost predicate Ok() {
      && Past(m, now) && Past(s, now) && now < later
      && (forall d :: d in toldM ==> d < now)
      && (forall d :: d in toldS ==> d < now)
      && Kept(m, keptM, now) && Kept(s, keptS, later)
      && (touchedM ==> MergedM().Some?)
      && (touchedS ==> MergedS().Some?)
    }

    /** The record after the replay is gone, as it was, or stamped anew. */
    ghost predicate Kept(p: Peer<F>, kept: Option<Record<F>>, at: Time) {
      kept.None? || kept == p.row || kept == Restamped(p.row, true, at)
    }

    /** Neither peer refuses a newer record of the other's. */
    ghost predicate Passes() {
      !Refused(MergedM(), keptS, toldS) && !Refused(keptS, keptM, toldM)
    }

    /** The slave does not stamp the record, and unless the master's repair does, the newer record passes. */
    ghost predicate Agrees() {
      !SlaveStamps() && (touchedM || Passes())
    }

    lemma AgreesIff()
      requires Ok()
      ensures Stamp(FinalM()) == Stamp(FinalS()) <==> Agrees()
      ensures FinalM() == FinalS() <==> Agrees() && (touchedM || !Ties(keptM, keptS))
    {
      assert !Dead(toldS, now);
    }

    /** What the slave ends with is stamped at its import exactly if the slave stamps it. */
    lemma StampedIff()
      requires Ok()
      ensures FinalS().Some? ==> FinalS().value.updatedAt <= later &&
                                 (FinalS().value.updatedAt == later <==> SlaveStamps())
      ensures FinalM().Some? ==> FinalM().value.updatedAt <= now
    {
    }

    /** What the slave ends with and has not stamped the master has as well, or it knows a deletion of it. */
    lemma MasterAbsorbs()
      requires Ok() && FinalS().Some? && FinalS().value.updatedAt < later
      ensures || (FinalM().Some? && FinalM().value.updatedAt >= FinalS().value.updatedAt)
              || Dead(toldM, FinalS().value.updatedAt)
    {
    }

    /** `after` is what a merge of the sender's row and a repair at `at` make of a record. */
    ghost predicate Half(p: Peer<F>, sent: Option<Record<F>>, kept: Option<Record<F>>, told: set<Time>, relinked: bool,
                         touched: bool, at: Time, after: Option<Record<F>>) {
      var merged := TakenAt(kept, sent, told, relinked, at);
      after == Restamped(merged, touched, at) && (touched ==> merged.Some?) && Kept(p, kept, at)
    }

    lemma FollowsHalves(rowM: Option<Record<F>>, rowS: Option<Record<F>>)
      requires Past(m, now) && Past(s, now) && now < later
      requires (forall d :: d in toldM ==> d < now) && (forall d :: d in toldS ==> d < now)
      requires Half(m, s.row, keptM, toldM, relinkM, touchedM, now, rowM)
      requires Half(s, rowM, keptS, toldS, relinkS, touchedS, later, rowS)
      ensures Ok() && rowM == FinalM() && rowS == FinalS()
    {
    }

    // ----- deletions told by Told, nothing stamped by taking it -----

    ghost predicate Plain() {
      toldM == Told(m, s) && toldS == Told(s, m) && !relinkM && !relinkS
    }

    /** `after` is what a merge with `sender` and a repair at `at` make of a peer. */
    ghost predicate Result(p: Peer<F>, sender: Peer<F>, kept: Option<Record<F>>, touched: bool, at: Time,
                           after: Peer<F>) {
      var merged := Taken(kept, sender.row, Told(p, sender));
      after == Peer(Restamped(merged, touched, at), Told(p, sender)) && (touched ==> merged.Some?) && Kept(p, kept, at)
    }

    /** Two merges in a row, each with its repair, are the cycle. */
    lemma FollowsTwoMerges(m': Peer<F>, s': Peer<F>)
      requires Plain() && Past(m, now) && Past(s, now) && now < later
      requires Result(m, s, keptM, touchedM, now, m') && Result(s, m', keptS, touchedS, later, s')
      ensures Ok() && m'.row == FinalM() && s'.row == FinalS()
    {
      ToldBack(m, s, m'.row);
      TakenIsTakenAt(keptM, s.row, toldM, now);
      TakenIsTakenAt(keptS, m'.row, toldS, later);
    }

    /** Where both know the same deletions and no live record is at or below one, only a stamp of the slave's stands
        in the way. */
    lemma AgreesWhenShared()
      requires Plain() && Ok() && Coherent(m) && Coherent(s) && m.deaths == s.deaths
      requires keptM == m.row && keptS == s.row
      ensures Agrees() <==> !touchedS
    {
      PassesWhenCoherent();
    }

    /** When no live record was at or below a deletion, a record gets stuck only where the other peer has none:
        on the master for a deletion the slave knows or learns, on the slave for one of the master's. */
    lemma PassesWhenCoherent()
      requires Plain() && Ok() && Coherent(m) && Coherent(s)
      requires (keptM.None? || keptM == m.row) && (keptS.None? || keptS == s.row)
      ensures Passes() <==> !HeldOut(keptM, s.row, toldS) && !HeldOut(keptS, keptM, toldM)
    {
    }
  }

  /** The cycle of a record that nobody stamps by taking it. */
  ghost function PlainCycle<F>(m: Peer<F>, s: Peer<F>, keptM: Option<Record<F>>, keptS: Option<Record<F>>,
                               touchedM: bool, touchedS: bool, now: Time, later: Time): Cycled<F> {
    Cycled(m, s, keptM, keptS, Told(m, s), Told(s, m), false, false, touchedM, touchedS, now, later)
  }

  ghost predicate HeldOut<F>(x: Option<Record<F>>, y: Option<Record<F>>, deaths: set<Time>) {
    x.Some? && y.None? && Dead(deaths, x.value.updatedAt)
  }
}
