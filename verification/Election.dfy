/** Master election over beacons: the role rules of handle_packet, run by any number of devices over a network that
    may lose, delay and repeat beacons. A device's capped uptime is its fixed rank; the lower device id breaks a
    tie. */
module Election {

  datatype Role = Undecided | Master | Slave

  type DeviceId = nat

  /** 30 days: a longer uptime does not count. */
  const MAX_UPTIME_SECS: nat := 30 * 24 * 3600

  datatype Beacon = Beacon(device: DeviceId, role: Role, uptime: nat)

  function Capped(uptime: nat): nat {
    if uptime < MAX_UPTIME_SECS then uptime else MAX_UPTIME_SECS
  }

  /** The device with the longer capped uptime wins, or the lower id. */
  predicate Wins(up: nat, id: DeviceId, peerUp: nat, peerId: DeviceId) {
    Capped(up) > Capped(peerUp) || (Capped(up) == Capped(peerUp) && id < peerId)
  }

  /** The four rules on (own role, beacon role). */
  function NextRole(mine: Role, theirs: Role, wins: bool): Role {
    match (mine, theirs)
    case (Undecided, Master) => Slave
    case (Undecided, _) => if wins then Master else Slave
    case (Master, Master) => if wins then Master else Slave
    case (_, _) => mine
  }

  /** A device and the peers it has heard of. */
  class Device {
    const id: DeviceId
    const uptime: nat
    var role: Role
    var forced: bool
    var peers: map<DeviceId, Beacon>

    constructor (id: DeviceId, uptime: nat)
      ensures this.id == id && this.uptime == uptime && role == Undecided && !forced && peers == map[]
    {
      this.id, this.uptime, this.role, this.forced, this.peers := id, uptime, Undecided, false, map[];
    }

    /** handle_packet on a beacon: remember the peer, then apply the rule. */
    method HandleBeacon(b: Beacon)
      modifies this
      ensures forced == old(forced)
      ensures b.device == id ==> role == old(role) && peers == old(peers)
      ensures b.device != id ==>
                && peers == old(peers)[b.device := b]
                && role == if forced then old(role)
                     else NextRole(old(role), b.role, Wins(uptime, id, b.uptime, b.device))
      ensures b.device != id && !forced ==>
                var mine, theirs := if uptime < 2592000 then uptime else 2592000,
                    if b.uptime < 2592000 then b.uptime else 2592000;
                var first := mine > theirs || (mine == theirs && id < b.device);
                match old(role)
                case Undecided => role == if b.role != Master && first then Master else Slave
                case Master => role == if b.role == Master && !first then Slave else Master
                case Slave => role == Slave
    {
      if b.device == id {
        return;
      }
      peers := peers[b.device := b];
      if !forced {
        var myUp := if uptime < MAX_UPTIME_SECS then uptime else MAX_UPTIME_SECS;
        var peerUp := if b.uptime < MAX_UPTIME_SECS then b.uptime else MAX_UPTIME_SECS;
        var wins := myUp > peerUp || (myUp == peerUp && id < b.device);
        if role == Undecided {
          if b.role == Master {
            role := Slave;
          } else if wins {
            role := Master;
          } else {
            role := Slave;
          }
        } else if role == Master && b.role == Master {
          if !wins {
            role := Slave;
          }
        }
      }
    }

    /** The startup election after five seconds of listening. It compares uptimes as they are;
        a daemon this young is far from the cap. */
    method StartupElection(heard: set<Beacon>)
      requires role == Undecided && !forced && uptime < MAX_UPTIME_SECS
      modifies this`role
      ensures role == StartupRole(uptime, id, heard)
      ensures role == Master <==>
                forall b :: b in heard ==>
                  b.role != Master && (b.uptime < uptime || (b.uptime == uptime && id <= b.device))
      ensures role == Master || role == Slave
    {
      if exists b :: b in heard && b.role == Master {
        role := Slave;
      } else if heard == {} {
        role := Master;
      } else if exists b :: b in heard && (b.uptime > uptime || (b.uptime == uptime && b.device < id)) {
        role := Slave;
      } else {
        role := Master;
      }
    }
  }

  /** The role a starting device takes: slave of any master it heard, else master unless a peer it heard outranks it. */
  function StartupRole(uptime: nat, id: DeviceId, heard: set<Beacon>): Role {
    if exists b :: b in heard && b.role == Master then Slave
    else if exists b :: b in heard && Wins(b.uptime, b.device, uptime, id) then Slave
    else Master
  }

  // ----- the network -----

  /** All devices, and every beacon ever sent: a beacon in `sent` may arrive at any time, any
      number of times, or never. */
  datatype World = World(uptime: map<DeviceId, nat>, roles: map<DeviceId, Role>, sent: set<Beacon>)

  datatype Action =
    | Announce(device: DeviceId, uptime: nat)
    | Deliver(device: DeviceId, beacon: Beacon)
    | Startup(device: DeviceId, heard: set<Beacon>)

  /** A device announces its own uptime; the bursts of the startup election announce 0. */
  predicate Enabled(w: World, a: Action) {
    && a.device in w.roles
    && a.device in w.uptime
    && match a
       case Announce(d, up) => up == w.uptime[d] || (up == 0 && w.roles[d] == Undecided)
       case Deliver(d, b) => b in w.sent && b.device != d
       case Startup(d, heard) => w.roles[d] == Undecided && heard <= w.sent && forall b :: b in heard ==> b.device != d
  }

  function Apply(w: World, a: Action): World
    requires Enabled(w, a)
  {
    match a
    case Announce(d, up) => w.(sent := w.sent + {Beacon(d, w.roles[d], up)})
    case Deliver(d, b) =>
      w.(roles := w.roles[d := NextRole(w.roles[d], b.role, Wins(w.uptime[d], d, b.uptime, b.device))])
    case Startup(d, heard) => w.(roles := w.roles[d := StartupRole(w.uptime[d], d, heard)])
  }

  predicate IsRun(w: World, actions: seq<Action>)
    decreases |actions|, 0
  {
    actions == [] || (IsRun(w, actions[..|actions| - 1]) &&
        Enabled(After(w, actions[..|actions| - 1]), actions[|actions| - 1]))
  }

  function After(w: World, actions: seq<Action>): World
    requires IsRun(w, actions)
    decreases |actions|, 1
  {
    if actions == [] then w else Apply(After(w, actions[..|actions| - 1]), actions[|actions| - 1])
  }

  ghost predicate Init(w: World) {
    w.roles.Keys == w.uptime.Keys && w.sent == {} && forall d :: d in w.roles ==> w.roles[d] == Undecided
  }

  // ----- ranks -----

  ghost predicate Beats(w: World, d: DeviceId, e: DeviceId)
    requires d in w.uptime && e in w.uptime
  {
    Wins(w.uptime[d], d, w.uptime[e], e)
  }

  ghost predicate IsTop(w: World, devices: set<DeviceId>, d: DeviceId)
    requires devices <= w.uptime.Keys
  {
    d in devices && forall e :: e in devices && e != d ==> Beats(w, d, e)
  }

  lemma {:induction false} TopExists(w: World, devices: set<DeviceId>)
    requires devices <= w.uptime.Keys && devices != {}
    ensures exists d :: IsTop(w, devices, d)
  {
    var x :| x in devices;
    var rest := devices - {x};
    if rest == {} {
      assert devices == {x};
      assert IsTop(w, devices, x);
    } else {
      TopExists(w, rest);
      var y :| IsTop(w, rest, y);
      assert forall e :: e in devices ==> e == x || e in rest;
      assert IsTop(w, devices, if Beats(w, x, y) then x else y);
    }
  }

  // ----- what every reachable state satisfies -----

  ghost predicate IsMaster(w: World, d: DeviceId) {
    d in w.roles && w.roles[d] == Master
  }

  ghost predicate HasMaster(w: World) {
    exists d :: IsMaster(w, d)
  }

  /** `x` is, or a device that outranks it is, master. */
  ghost predicate MasterAbove(w: World, x: DeviceId)
    requires x in w.uptime
  {
    exists y :: IsMaster(w, y) && y in w.uptime && (y == x || Beats(w, y, x))
  }

  ghost predicate BeaconsOk(w: World) {
    forall b :: b in w.sent ==>
      b.device in w.uptime && b.uptime <= w.uptime[b.device] && (b.role == Master ==> b.uptime == w.uptime[b.device])
  }

  /** Whoever claims to be master, now or in a beacon under way, has a master at or above it;
      and the highest device is a slave only under some master. */
  ghost predicate Inv(w: World) {
    && w.roles.Keys == w.uptime.Keys
    && BeaconsOk(w)
    && (forall b :: b in w.sent && b.role == Master ==> MasterAbove(w, b.device))
    && (forall d :: IsTop(w, w.uptime.Keys, d) && w.roles[d] == Slave ==> HasMaster(w))
  }

  lemma InitInv(w: World)
    requires Init(w)
    ensures Inv(w)
  {
  }

  /** A device changes its role; if it was a master, one that outranks it still is. */
  lemma RoleChangeKeepsMasters(w: World, w': World, d: DeviceId)
    requires w.roles.Keys == w.uptime.Keys && d in w.roles
    requires d in w'.roles && w'.uptime == w.uptime && w'.roles == w.roles[d := w'.roles[d]]
    requires w.roles[d] == Master && w'.roles[d] != Master ==> exists y :: y != d && IsMaster(w, y) && Beats(w, y, d)
    ensures HasMaster(w) ==> HasMaster(w')
    ensures forall x :: x in w.uptime && MasterAbove(w, x) ==> MasterAbove(w', x)
  {
    if w.roles[d] == Master && w'.roles[d] != Master {
      var z :| z != d && IsMaster(w, z) && Beats(w, z, d);
      assert IsMaster(w', z);
      forall x | x in w.uptime && MasterAbove(w, x) ensures MasterAbove(w', x) {
        var y :| IsMaster(w, y) && y in w.uptime && (y == x || Beats(w, y, x));
        var y' := if y == d then z else y;
        assert IsMaster(w', y') && (y' == x || Beats(w', y', x));
      }
    } else {
      forall y | IsMaster(w, y) ensures IsMaster(w', y) {
      }
      forall x | x in w.uptime && MasterAbove(w, x) ensures MasterAbove(w', x) {
        var y :| IsMaster(w, y) && y in w.uptime && (y == x || Beats(w, y, x));
        assert IsMaster(w', y) && (y == x || Beats(w', y, x));
      }
    }
  }

  lemma DeliverKeepsMasters(w: World, d: DeviceId, b: Beacon)
    requires Inv(w) && Enabled(w, Deliver(d, b))
    ensures HasMaster(w) ==> HasMaster(Apply(w, Deliver(d, b)))
    ensures forall x :: x in w.uptime && MasterAbove(w, x) ==> MasterAbove(Apply(w, Deliver(d, b)), x)
  {
    var w' := Apply(w, Deliver(d, b));
    if w.roles[d] == Master && w'.roles[d] != Master {
      var y :| IsMaster(w, y) && y in w.uptime && (y == b.device || Beats(w, y, b.device));
      assert y != d && Beats(w, y, d);
    }
    RoleChangeKeepsMasters(w, w', d);
  }

  lemma DeliverKeepsInv(w: World, d: DeviceId, b: Beacon)
    requires Inv(w) && Enabled(w, Deliver(d, b))
    ensures Inv(Apply(w, Deliver(d, b)))
    ensures HasMaster(w) ==> HasMaster(Apply(w, Deliver(d, b)))
  {
    var w' := Apply(w, Deliver(d, b));
    DeliverKeepsMasters(w, d, b);
    forall t | IsTop(w', w'.uptime.Keys, t) && w'.roles[t] == Slave ensures HasMaster(w') {
      assert IsTop(w, w.uptime.Keys, t);
      if w.roles[t] != Slave {
        assert Beats(w, t, b.device);
        assert MasterAbove(w', b.device);
      }
    }
  }

  lemma StartupKeepsInv(w: World, d: DeviceId, heard: set<Beacon>)
    requires Inv(w) && Enabled(w, Startup(d, heard))
    ensures Inv(Apply(w, Startup(d, heard)))
    ensures HasMaster(w) ==> HasMaster(Apply(w, Startup(d, heard)))
  {
    var w' := Apply(w, Startup(d, heard));
    RoleChangeKeepsMasters(w, w', d);
    forall t | IsTop(w', w'.uptime.Keys, t) && w'.roles[t] == Slave ensures HasMaster(w') {
      assert IsTop(w, w.uptime.Keys, t);
      if w.roles[t] != Slave {
        forall c | c in heard ensures !Wins(c.uptime, c.device, w.uptime[t], t) {
          assert Beats(w, t, c.device);
        }
        var b :| b in heard && b.role == Master;
        assert MasterAbove(w, b.device);
        assert MasterAbove(w', b.device);
      }
    }
  }

  lemma AnnounceKeepsInv(w: World, d: DeviceId, up: nat)
    requires Inv(w) && Enabled(w, Announce(d, up))
    ensures Inv(Apply(w, Announce(d, up)))
    ensures HasMaster(w) ==> HasMaster(Apply(w, Announce(d, up)))
  {
    var w' := Apply(w, Announce(d, up));
    forall x | x in w.uptime && MasterAbove(w, x) ensures MasterAbove(w', x) {
      var y :| IsMaster(w, y) && y in w.uptime && (y == x || Beats(w, y, x));
      assert IsMaster(w', y) && (y == x || Beats(w', y, x));
    }
    if w.roles[d] == Master {
      assert IsMaster(w', d) && MasterAbove(w', d);
    }
    forall t | IsTop(w', w'.uptime.Keys, t) && w'.roles[t] == Slave ensures HasMaster(w') {
      assert IsTop(w, w.uptime.Keys, t);
      var y :| IsMaster(w, y);
      assert IsMaster(w', y);
    }
    if y :| IsMaster(w, y) {
      assert IsMaster(w', y);
    }
  }

  lemma ApplyKeepsInv(w: World, a: Action)
    requires Inv(w) && Enabled(w, a)
    ensures Inv(Apply(w, a))
    ensures HasMaster(w) ==> HasMaster(Apply(w, a))
  {
    match a
    case Announce(d, up) => AnnounceKeepsInv(w, d, up);
    case Deliver(d, b) => DeliverKeepsInv(w, d, b);
    case Startup(d, heard) => StartupKeepsInv(w, d, heard);
  }

  lemma {:induction false} RunKeepsInv(w: World, actions: seq<Action>)
    requires Inv(w) && IsRun(w, actions)
    ensures Inv(After(w, actions))
  {
    if actions != [] {
      RunKeepsInv(w, actions[..|actions| - 1]);
      ApplyKeepsInv(After(w, actions[..|actions| - 1]), actions[|actions| - 1]);
    }
  }

  lemma {:induction false} PrefixIsRun(w: World, actions: seq<Action>, i: nat)
    requires IsRun(w, actions) && i <= |actions|
    ensures IsRun(w, actions[..i])
  {
    if i == |actions| {
      assert actions[..i] == actions;
    } else {
      assert actions[..|actions| - 1][..i] == actions[..i];
      PrefixIsRun(w, actions[..|actions| - 1], i);
    }
  }

  /** Safety: once any device is master, some device stays master for the rest of the run. */
  lemma {:induction false} MasterPersists(w: World, actions: seq<Action>, i: nat)
    requires Init(w) && IsRun(w, actions) && i <= |actions|
    requires IsRun(w, actions[..i]) && HasMaster(After(w, actions[..i]))
    ensures HasMaster(After(w, actions))
  {
    if i == |actions| {
      assert actions[..i] == actions;
    } else {
      var init := actions[..|actions| - 1];
      assert init[..i] == actions[..i];
      MasterPersists(w, init, i);
      InitInv(w);
      RunKeepsInv(w, init);
      ApplyKeepsInv(After(w, init), actions[|actions| - 1]);
    }
  }

  // ----- quiet states -----

  /** No beacon that any device would send now changes the role of another. */
  ghost predicate Quiet(w: World)
    requires w.roles.Keys == w.uptime.Keys
  {
    forall d, e :: d in w.roles && e in w.roles && d != e ==>
      NextRole(w.roles[d], w.roles[e], Wins(w.uptime[d], d, w.uptime[e], e)) == w.roles[d]
  }

  /** All but `m` are slaves, and it is master. */
  ghost predicate SoleMaster(w: World, m: DeviceId) {
    IsMaster(w, m) && forall d :: d in w.roles && d != m ==> w.roles[d] == Slave
  }

  ghost predicate OneMaster(w: World) {
    exists m :: SoleMaster(w, m)
  }

  lemma QuietHasMaster(w: World)
    requires Inv(w) && Quiet(w) && |w.roles| >= 2
    ensures HasMaster(w)
  {
    QuietHasNoUndecided(w);
    TopExists(w, w.uptime.Keys);
    var t :| IsTop(w, w.uptime.Keys, t);
    if w.roles[t] == Master {
      assert IsMaster(w, t);
    }
  }

  lemma QuietHasOneMaster(w: World, m: DeviceId)
    requires w.roles.Keys == w.uptime.Keys && Quiet(w) && |w.roles| >= 2 && IsMaster(w, m)
    ensures forall d :: d in w.roles && d != m ==> w.roles[d] == Slave
  {
    QuietHasNoUndecided(w);
    forall d | d in w.roles && d != m ensures w.roles[d] == Slave {
      assert NextRole(w.roles[d], w.roles[m], Wins(w.uptime[d], d, w.uptime[m], m)) == w.roles[d];
      assert NextRole(w.roles[m], w.roles[d], Wins(w.uptime[m], m, w.uptime[d], d)) == w.roles[m];
    }
  }

  /** Agreement: with two or more devices, a reachable state is quiet exactly when one device is
      master and all the others are slaves. */
  lemma QuietIffOneMaster(w: World, actions: seq<Action>)
    requires Init(w) && IsRun(w, actions) && |w.roles| >= 2
    ensures After(w, actions).roles.Keys == After(w, actions).uptime.Keys
    ensures Quiet(After(w, actions)) <==> OneMaster(After(w, actions))
  {
    var v := After(w, actions);
    InitInv(w);
    RunKeepsInv(w, actions);
    DevicesStay(w, actions);
    assert |v.roles| == |v.roles.Keys| == |w.roles.Keys| == |w.roles|;
    if Quiet(v) {
      QuietIsSettled(v);
    }
    if OneMaster(v) {
      OneMasterIsQuiet(v);
    }
  }

  lemma OneMasterIsQuiet(w: World)
    requires w.roles.Keys == w.uptime.Keys && OneMaster(w)
    ensures Quiet(w)
  {
  }

  lemma QuietIsSettled(w: World)
    requires Inv(w) && Quiet(w) && |w.roles| >= 2
    ensures OneMaster(w)
  {
    QuietHasMaster(w);
    var m :| IsMaster(w, m);
    QuietHasOneMaster(w, m);
    assert SoleMaster(w, m);
  }

  lemma SoleMasterStays(w: World, a: Action, m: DeviceId)
    requires Inv(w) && Enabled(w, a) && SoleMaster(w, m)
    ensures SoleMaster(Apply(w, a), m)
  {
    if a.Deliver? && a.device == m && a.beacon.role == Master {
      assert MasterAbove(w, a.beacon.device);
    }
  }

  /** Once one device is master over slaves it is so for ever, whatever old beacons still arrive. */
  lemma {:induction false} SoleMasterPersists(w: World, actions: seq<Action>, i: nat, m: DeviceId)
    requires Init(w) && IsRun(w, actions) && i <= |actions|
    requires IsRun(w, actions[..i]) && SoleMaster(After(w, actions[..i]), m)
    ensures SoleMaster(After(w, actions), m)
  {
    if i == |actions| {
      assert actions[..i] == actions;
    } else {
      var init := actions[..|actions| - 1];
      assert init[..i] == actions[..i];
      SoleMasterPersists(w, init, i, m);
      InitInv(w);
      RunKeepsInv(w, init);
      SoleMasterStays(After(w, init), actions[|actions| - 1], m);
    }
  }

  lemma {:induction false} DevicesStay(w: World, actions: seq<Action>)
    requires IsRun(w, actions)
    ensures After(w, actions).roles.Keys == w.roles.Keys && After(w, actions).uptime == w.uptime
  {
    if actions != [] {
      DevicesStay(w, actions[..|actions| - 1]);
    }
  }

  lemma QuietHasNoUndecided(w: World)
    requires w.roles.Keys == w.uptime.Keys && Quiet(w) && |w.roles| >= 2
    ensures forall d :: d in w.roles ==> w.roles[d] != Undecided
  {
    forall d | d in w.roles ensures w.roles[d] != Undecided {
      assert |w.roles.Keys - {d}| >= 1;
      var e :| e in w.roles.Keys - {d};
      assert NextRole(w.roles[d], w.roles[e], Wins(w.uptime[d], d, w.uptime[e], e)) == w.roles[d];
    }
  }

  // ----- the number of role changes -----

  ghost function WithRole(w: World, r: Role): set<DeviceId> {
    set d | d in w.roles && w.roles[d] == r
  }

  ghost function Potential(w: World): nat {
    2 * |WithRole(w, Undecided)| + |WithRole(w, Master)|
  }

  /** A role change leads out of undecided, or from master to slave. */
  lemma WithRoleAfter(w: World, d: DeviceId, r: Role, x: Role)
    requires d in w.roles && r != w.roles[d]
    ensures var after := WithRole(w.(roles := w.roles[d := r]), x);
            if x == r then after == WithRole(w, x) + {d} && d !in WithRole(w, x)
            else if x == w.roles[d] then after == WithRole(w, x) - {d} && d in WithRole(w, x)
            else after == WithRole(w, x)
  {
  }

  lemma RoleChangeLowersPotential(w: World, d: DeviceId, r: Role)
    requires d in w.roles && r != w.roles[d] && r != Undecided && w.roles[d] != Slave
    requires w.roles[d] == Master ==> r == Slave
    ensures Potential(w.(roles := w.roles[d := r])) < Potential(w)
  {
    WithRoleAfter(w, d, r, Undecided);
    WithRoleAfter(w, d, r, Master);
  }

  lemma ApplyLowersPotential(w: World, a: Action)
    requires Enabled(w, a)
    ensures Potential(Apply(w, a)) + (if Apply(w, a).roles != w.roles then 1 else 0) <= Potential(w)
  {
    var w' := Apply(w, a);
    if w'.roles == w.roles {
      assert WithRole(w', Undecided) == WithRole(w, Undecided) && WithRole(w', Master) == WithRole(w, Master);
    } else {
      RoleChangeLowersPotential(w, a.device, w'.roles[a.device]);
    }
  }

  ghost function Changes(w: World, actions: seq<Action>): nat
    requires IsRun(w, actions)
  {
    if actions == [] then 0
    else
      Changes(w, actions[..|actions| - 1]) +
      if After(w, actions).roles != After(w, actions[..|actions| - 1]).roles then 1 else 0
  }

  lemma {:induction false} ChangesPaidFor(w: World, actions: seq<Action>)
    requires IsRun(w, actions)
    ensures Changes(w, actions) + Potential(After(w, actions)) <= Potential(w)
  {
    if actions != [] {
      ChangesPaidFor(w, actions[..|actions| - 1]);
      ApplyLowersPotential(After(w, actions[..|actions| - 1]), actions[|actions| - 1]);
    }
  }

  /** A run of n devices changes roles at most 2n times, however long it is. */
  lemma AtMostTwiceEach(w: World, actions: seq<Action>)
    requires Init(w) && IsRun(w, actions)
    ensures Changes(w, actions) <= 2 * |w.roles|
  {
    ChangesPaidFor(w, actions);
    assert WithRole(w, Undecided) == w.roles.Keys;
    assert WithRole(w, Master) == {};
  }

  /** A current beacon that changes a role is sent and delivered. */
  lemma MoveOn(w: World, actions: seq<Action>, d: DeviceId, e: DeviceId) returns (more: seq<Action>)
    requires IsRun(w, actions)
    requires var v := After(w, actions);
             && v.roles.Keys == v.uptime.Keys && d in v.roles && e in v.roles && d != e
             && NextRole(v.roles[d], v.roles[e], Wins(v.uptime[d], d, v.uptime[e], e)) != v.roles[d]
    ensures actions <= more && |more| == |actions| + 2 && IsRun(w, more)
    ensures Potential(After(w, more)) < Potential(After(w, actions))
  {
    var v := After(w, actions);
    var one := actions + [Announce(e, v.uptime[e])];
    assert one[..|actions|] == actions;
    var v1 := After(w, one);
    assert v1 == v.(sent := v.sent + {Beacon(e, v.roles[e], v.uptime[e])});
    assert WithRole(v1, Undecided) == WithRole(v, Undecided) && WithRole(v1, Master) == WithRole(v, Master);
    var last := Deliver(d, Beacon(e, v.roles[e], v.uptime[e]));
    more := one + [last];
    assert more[..|one|] == one;
    ApplyLowersPotential(v1, last);
  }

  /** Every reachable state can be led to a single master by one beacon for each role change still possible. */
  lemma CanSettle(w: World, actions: seq<Action>) returns (more: seq<Action>)
    requires Init(w) && IsRun(w, actions) && |w.roles| >= 2
    ensures actions <= more && IsRun(w, more) && OneMaster(After(w, more))
    ensures |more| <= |actions| + 2 * Potential(After(w, actions))
    decreases Potential(After(w, actions))
  {
    QuietIffOneMaster(w, actions);
    if Quiet(After(w, actions)) {
      more := actions;
    } else {
      var d, e := Unquiet(After(w, actions));
      var next := MoveOn(w, actions, d, e);
      more := CanSettle(w, next);
    }
  }

  lemma Unquiet(w: World) returns (d: DeviceId, e: DeviceId)
    requires w.roles.Keys == w.uptime.Keys && !Quiet(w)
    ensures d in w.roles && e in w.roles && d != e
    ensures NextRole(w.roles[d], w.roles[e], Wins(w.uptime[d], d, w.uptime[e], e)) != w.roles[d]
  {
    d, e :| d in w.roles && e in w.roles && d != e &&
        NextRole(w.roles[d], w.roles[e], Wins(w.uptime[d], d, w.uptime[e], e)) != w.roles[d];
  }

  // ----- who it is -----

  /** The rank written out: up to 30 days the longer uptime counts, and of equals the lower id. */
  lemma BeatsIff(w: World, d: DeviceId, e: DeviceId)
    requires d in w.uptime && e in w.uptime
    ensures var mine, theirs := if w.uptime[d] < 2592000 then w.uptime[d] else 2592000,
              if w.uptime[e] < 2592000 then w.uptime[e] else 2592000;
            Beats(w, d, e) <==> mine > theirs || (mine == theirs && d < e)
  {
  }

  /** The beacon of one master reaches the other. */
  lemma MasterHearsMaster(w: World, d: DeviceId, e: DeviceId)
    requires d != e && d in w.roles && d in w.uptime && e in w.uptime && w.roles[d] == Master
    requires Beacon(e, Master, w.uptime[e]) in w.sent
    ensures Enabled(w, Deliver(d, Beacon(e, Master, w.uptime[e])))
    ensures Apply(w, Deliver(d, Beacon(e, Master, w.uptime[e]))) ==
              w.(roles := w.roles[d := if Beats(w, d, e) then Master else Slave])
  {
  }

  /** Two masters announce themselves, and each hears the other. */
  function Exchange(w: World, d: DeviceId, e: DeviceId): seq<Action>
    requires d in w.uptime && e in w.uptime
  {
    [Announce(d, w.uptime[d]), Announce(e, w.uptime[e]),
     Deliver(d, Beacon(e, Master, w.uptime[e])), Deliver(e, Beacon(d, Master, w.uptime[d]))]
  }

  lemma AfterMore(w: World, actions: seq<Action>, a: Action)
    requires IsRun(w, actions) && Enabled(After(w, actions), a)
    ensures IsRun(w, actions + [a]) && After(w, actions + [a]) == Apply(After(w, actions), a)
  {
    assert (actions + [a])[..|actions|] == actions;
  }

  /** Of two masters that exchange their beacons the one with the longer uptime, up to 30 days, is left, and of equals
      the one with the lower id, whoever hears of the other first. No other device changes its role. */
  lemma ExchangeLeavesOne(w: World, actions: seq<Action>, d: DeviceId, e: DeviceId)
    requires Init(w) && IsRun(w, actions) && d != e && IsMaster(After(w, actions), d) && IsMaster(After(w, actions), e)
    ensures d in w.uptime && e in w.uptime && IsRun(w, actions + Exchange(w, d, e))
    ensures var mine, theirs := if w.uptime[d] < 2592000 then w.uptime[d] else 2592000,
              if w.uptime[e] < 2592000 then w.uptime[e] else 2592000;
            var first := if mine > theirs || (mine == theirs && d < e) then d else e;
            After(w, actions + Exchange(w, d, e)).roles ==
              After(w, actions).roles[d := Slave][e := Slave][first := Master]
  {
    var v := After(w, actions);
    DevicesStay(w, actions);
    var x := Exchange(w, d, e);
    AfterMore(w, actions, x[0]);
    var one := actions + [x[0]];
    AfterMore(w, one, x[1]);
    var two := one + [x[1]];
    var v2 := After(w, two);
    assert v2 == v.(sent := v.sent + {Beacon(d, Master, w.uptime[d])} + {Beacon(e, Master, w.uptime[e])});
    MasterHearsMaster(v2, d, e);
    AfterMore(w, two, x[2]);
    var three := two + [x[2]];
    AfterMore(w, three, x[3]);
    assert actions + x == three + [x[3]];
    BeatsIff(v, d, e);
    BeatsIff(v, e, d);
  }

  /** Over any run: above every device that is or ever announced itself as a master there is a master with a longer
      uptime, up to 30 days, or an equal one and no higher id. */
  lemma HighestClaimStays(w: World, actions: seq<Action>, b: Beacon)
    requires Init(w) && IsRun(w, actions)
    requires b in After(w, actions).sent && b.role == Master
    ensures exists m: DeviceId :: IsMaster(After(w, actions), m) && m in w.uptime && b.device in w.uptime &&
              var mine, theirs := if w.uptime[m] < 2592000 then w.uptime[m] else 2592000,
                  if w.uptime[b.device] < 2592000 then w.uptime[b.device] else 2592000;
              mine > theirs || (mine == theirs && m <= b.device)
  {
    var v := After(w, actions);
    InitInv(w);
    RunKeepsInv(w, actions);
    DevicesStay(w, actions);
    assert MasterAbove(v, b.device);
    var y :| IsMaster(v, y) && y in v.uptime && (y == b.device || Beats(v, y, b.device));
    BeatsIff(v, y, b.device);
  }

  /** An undecided device that hears a beacon of no master becomes master exactly if its uptime, up to 30 days, is the
      longer one, or equal and its id the lower. */
  lemma UndecidedDecides(w: World, d: DeviceId, b: Beacon)
    requires Enabled(w, Deliver(d, b)) && w.roles[d] == Undecided && b.role != Master
    ensures var mine, theirs := if w.uptime[d] < 2592000 then w.uptime[d] else 2592000,
              if b.uptime < 2592000 then b.uptime else 2592000;
            Apply(w, Deliver(d, b)).roles ==
              w.roles[d := if mine > theirs || (mine == theirs && d < b.device) then Master else Slave]
  {
  }

  /** A device that starts becomes master exactly if it heard of no master and no one who outranks it. */
  lemma StartupDecides(w: World, d: DeviceId, heard: set<Beacon>)
    requires Enabled(w, Startup(d, heard))
    ensures var role := Apply(w, Startup(d, heard)).roles[d];
            && (role == Master || role == Slave)
            && (role == Master <==>
                  forall b :: b in heard ==>
                    var mine, theirs := if w.uptime[d] < 2592000 then w.uptime[d] else 2592000,
                        if b.uptime < 2592000 then b.uptime else 2592000;
                    b.role != Master && (theirs < mine || (theirs == mine && d <= b.device)))
  {
  }
}
