/** The main loop's tic ring: local commands and received sets share BACKUPTICS slots,
    consumed by TryRunTics. The ring refines unbounded histories of both. */
module DLoop {
  import opened Bits

  const BACKUPTICS: nat := 128
  const NET_MAXPLAYERS: nat := 8
  const MAX_NETGAME_STALL_TICS: int := 5
  const BT_SPECIAL: nat := 128

  /** A command; motion stands for the fields the loop never looks at. */
  datatype Ticcmd = Ticcmd(motion: seq<int>, chatchar: nat, buttons: nat)

  datatype TicSet_ = TicSet(cmds: seq<Ticcmd>, ingame: seq<bool>)

  type TicSet = s: TicSet_ | |s.cmds| == NET_MAXPLAYERS && |s.ingame| == NET_MAXPLAYERS
    witness TicSet(seq(NET_MAXPLAYERS, _ => Ticcmd([], 0, 0)), seq(NET_MAXPLAYERS, _ => false))

  type Player = i: nat | i < NET_MAXPLAYERS

  /** What one call of NetUpdate finds: sets the network has ready, whether the server
      hangs up after them, the commands the clock asks for, and the time. */
  datatype Poll = Poll(arrivals: seq<TicSet>, hangup: bool, cmds: seq<Ticcmd>, now: nat)

  /** At most n of them. */
  function UpTo<T>(s: seq<T>, n: int): seq<T> {
    if n <= 0 then [] else if n < |s| then s[..n] else s
  }

  datatype Outcome = Ran | Stalled | NoPlayers | DroneDisconnected | LowticBelowGametic | GameticAboveLowtic

  function SquashCmd(c: Ticcmd): Ticcmd {
    c.(chatchar := 0, buttons := if c.buttons / BT_SPECIAL % 2 == 1 then 0 else c.buttons)
  }

  /** The set a duplicated tic runs: no chat, no special buttons. */
  function Squash(s: TicSet): TicSet {
    s.(cmds := seq(NET_MAXPLAYERS, i requires 0 <= i < NET_MAXPLAYERS => SquashCmd(s.cmds[i])))
  }

  function OnlyLocal(s: TicSet, local: Player): TicSet {
    s.(ingame := seq(NET_MAXPLAYERS, i requires 0 <= i < NET_MAXPLAYERS => s.ingame[i] && i == local))
  }

  lemma SquashTwice(s: TicSet)
    ensures Squash(Squash(s)) == Squash(s)
  {
    var t := Squash(s);
    assert forall i :: 0 <= i < NET_MAXPLAYERS ==> Squash(t).cmds[i] == t.cmds[i];
    assert Squash(t).cmds == t.cmds;
  }

  // ---------- the histories the ring stands for ----------

  /** One client's unbounded histories: the commands it built and the sets it received. */
  datatype History = History(local: Player, drone: bool, ticdup: nat, built: seq<Ticcmd>, received: seq<TicSet>)

  ghost predicate Available(h: History, k: nat) {
    k < |h.received| && (h.drone || k < |h.built|)
  }

  /** Player i's command in tic k of a connected game. */
  ghost function CmdOf(h: History, k: nat, i: Player): Ticcmd
    requires Available(h, k)
  {
    if i == h.local && !h.drone then h.built[k] else h.received[k].cmds[i]
  }

  ghost function IngameOf(h: History, k: nat, i: Player): bool
    requires Available(h, k)
  {
    (i == h.local && !h.drone) || h.received[k].ingame[i]
  }

  /** A slot holds the local player's command. */
  ghost predicate HasLocal(s: TicSet, cmd: Ticcmd, p: Player) {
    s.cmds[p] == cmd && s.ingame[p]
  }

  /** A slot holds a received set, except the local player's part. */
  ghost predicate HasOthers(s: TicSet, r: TicSet, p: Player, drone: bool) {
    forall i: Player | i != p || drone :: s.cmds[i] == r.cmds[i] && s.ingame[i] == r.ingame[i]
  }

  ghost predicate HoldsLocal(slots: seq<TicSet>, next: nat, built: seq<Ticcmd>, p: Player) {
    |slots| == BACKUPTICS &&
    forall k :: next <= k < |built| ==> HasLocal(slots[k % BACKUPTICS], built[k], p)
  }

  ghost predicate HoldsOthers(slots: seq<TicSet>, next: nat, received: seq<TicSet>, p: Player, drone: bool) {
    |slots| == BACKUPTICS &&
    forall k :: next <= k < |received| ==> HasOthers(slots[k % BACKUPTICS], received[k], p, drone)
  }

  lemma OtherSlot(k: nat, l: nat)
    requires k < l < k + BACKUPTICS
    ensures k % BACKUPTICS != l % BACKUPTICS
  {
  }

  function WithLocal(s: TicSet, cmd: Ticcmd, p: Player): TicSet {
    s.(cmds := s.cmds[p := cmd], ingame := s.ingame[p := true])
  }

  function WithOthers(s: TicSet, r: TicSet, p: Player, drone: bool): TicSet {
    if drone then r else TicSet(r.cmds[p := s.cmds[p]], r.ingame[p := s.ingame[p]])
  }

  lemma BuildKeeps(slots: seq<TicSet>, next: nat, built: seq<Ticcmd>, received: seq<TicSet>, p: Player, cmd: Ticcmd)
    requires next <= |built| < next + BACKUPTICS && |received| <= |built|
    requires HoldsLocal(slots, next, built, p) && HoldsOthers(slots, next, received, p, false)
    ensures var m := |built| % BACKUPTICS;
            var slots' := slots[m := WithLocal(slots[m], cmd, p)];
            HoldsLocal(slots', next, built + [cmd], p) && HoldsOthers(slots', next, received, p, false)
  {
    var m := |built| % BACKUPTICS;
    var slots' := slots[m := WithLocal(slots[m], cmd, p)];
    forall k | next <= k < |built|
      ensures slots'[k % BACKUPTICS] == slots[k % BACKUPTICS]
    {
      OtherSlot(k, |built|);
    }
  }

  lemma ReceiveKeeps(slots: seq<TicSet>, next: nat, built: seq<Ticcmd>, received: seq<TicSet>, p: Player,
                     drone: bool, set0: TicSet)
    requires next <= |received| < next + BACKUPTICS && |built| <= next + BACKUPTICS
    requires !drone ==> HoldsLocal(slots, next, built, p)
    requires HoldsOthers(slots, next, received, p, drone)
    ensures var m := |received| % BACKUPTICS;
            var slots' := slots[m := WithOthers(slots[m], set0, p, drone)];
            && (!drone ==> HoldsLocal(slots', next, built, p))
            && HoldsOthers(slots', next, received + [set0], p, drone)
  {
    var m := |received| % BACKUPTICS;
    var slots' := slots[m := WithOthers(slots[m], set0, p, drone)];
    forall k | next <= k < |received|
      ensures slots'[k % BACKUPTICS] == slots[k % BACKUPTICS]
    {
      OtherSlot(k, |received|);
    }
    assert HasOthers(slots'[m], set0, p, drone);
    if !drone {
      forall k | next <= k < |built|
        ensures HasLocal(slots'[k % BACKUPTICS], built[k], p)
      {
        assert HasLocal(slots[k % BACKUPTICS], built[k], p);
      }
    }
  }

  /** The set for tic k of a connected game. */
  ghost predicate LiveSet(s: TicSet, h: History, k: nat) {
    Available(h, k) && forall i: Player :: s.cmds[i] == CmdOf(h, k, i) && s.ingame[i] == IngameOf(h, k, i)
  }

  /** The set for tic k after the connection is gone: the local player alone. */
  ghost predicate OfflineSet(s: TicSet, h: History, k: nat) {
    && !h.drone && k < |h.built| && s.cmds[h.local] == h.built[k]
    && forall i: Player :: s.ingame[i] <==> i == h.local
  }

  /** What was executed as game tic g is the set of tic g / ticdup, squashed unless g is
      the first of its duplicates. */
  ghost predicate RunAs(e: TicSet, h: History, g: nat, live: bool)
    requires h.ticdup > 0
  {
    exists s: TicSet ::
      && (if live then LiveSet(s, h, g / h.ticdup) else OfflineSet(s, h, g / h.ticdup))
      && e == Again(s, g % h.ticdup)
  }

  /** The execution log refines the histories; the first liveSets sets ran while connected. */
  ghost predicate Refines(executed: seq<TicSet>, h: History, liveSets: nat)
    requires h.ticdup > 0
  {
    && (forall g :: 0 <= g < |executed| ==> RunAs(executed[g], h, g, g / h.ticdup < liveSets))
    && Repeats(executed, h.ticdup)
  }

  /** All runs of a set but the first are squashed runs of that first. */
  ghost predicate Repeats(executed: seq<TicSet>, ticdup: nat)
    requires ticdup > 0
  {
    forall g :: 0 <= g < |executed| && g % ticdup != 0 ==> executed[g] == Squash(executed[g - g % ticdup])
  }

  ghost predicate Special(c: Ticcmd) {
    c.buttons / BT_SPECIAL % 2 == 1
  }

  /** The same movement, without a letter and without special buttons. */
  ghost predicate Tame(c: Ticcmd, first: Ticcmd) {
    && c.motion == first.motion && c.chatchar == 0 && !Special(c)
    && c.buttons == if Special(first) then 0 else first.buttons
  }

  /** Chat and special buttons act once: in every run, of the game tics that a set is run for, the first
      has it whole, and all others have the same players with tame commands. */
  lemma ActsOnce(executed: seq<TicSet>, h: History, liveSets: nat, g: nat, i: Player)
    requires h.ticdup > 0 && Refines(executed, h, liveSets) && g < |executed|
    ensures var first := executed[g - g % h.ticdup];
            && executed[g].ingame == first.ingame
            && (g % h.ticdup != 0 ==> Tame(executed[g].cmds[i], first.cmds[i]))
            && (g % h.ticdup == 0 && g / h.ticdup < liveSets ==> LiveSet(executed[g], h, g / h.ticdup))
            && (g % h.ticdup == 0 && g / h.ticdup >= liveSets ==> OfflineSet(executed[g], h, g / h.ticdup))
  {
    hide LiveSet, OfflineSet, Squash, Tame;
    assert RunAs(executed[g], h, g, g / h.ticdup < liveSets);
    if g % h.ticdup != 0 {
      assert executed[g] == Squash(executed[g - g % h.ticdup]);
      SquashTames(executed[g - g % h.ticdup], i);
    }
  }

  lemma SquashTames(s: TicSet, i: Player)
    ensures Squash(s).ingame == s.ingame && Tame(Squash(s).cmds[i], s.cmds[i])
  {
  }

  ghost predicate Grows(h: History, h': History) {
    h.built <= h'.built && h.received <= h'.received
    && h' == h.(built := h'.built, received := h'.received)
  }

  /** More history never changes what was executed. */
  lemma RefinesGrows(executed: seq<TicSet>, h: History, h': History, liveSets: nat)
    requires h.ticdup > 0 && Grows(h, h') && Refines(executed, h, liveSets)
    ensures Refines(executed, h', liveSets)
  {
    hide Repeats, RunAs;
    forall g | 0 <= g < |executed|
      ensures RunAs(executed[g], h', g, g / h.ticdup < liveSets)
    {
      RunAsGrows(executed[g], h, h', g, g / h.ticdup < liveSets);
    }
  }

  lemma RunAsGrows(e: TicSet, h: History, h': History, g: nat, live: bool)
    requires h.ticdup > 0 && Grows(h, h') && RunAs(e, h, g, live)
    ensures RunAs(e, h', g, live)
  {
    hide Again;
    var k := g / h.ticdup;
    var s: TicSet :| (if live then LiveSet(s, h, k) else OfflineSet(s, h, k)) && e == Again(s, g % h.ticdup);
    assert if live then LiveSet(s, h', k) else OfflineSet(s, h', k);
  }

  lemma RefinesSnoc(executed: seq<TicSet>, h: History, liveSets: nat, e: TicSet)
    requires h.ticdup > 0 && Refines(executed, h, liveSets)
    requires RunAs(e, h, |executed|, |executed| / h.ticdup < liveSets)
    requires var i := |executed| % h.ticdup; i != 0 ==> e == Squash(executed[|executed| - i])
    ensures Refines(executed + [e], h, liveSets)
  {
    hide RunAs, Squash;
  }

  lemma RefinesOneMoreLive(executed: seq<TicSet>, h: History, k: nat)
    requires h.ticdup > 0 && |executed| == k * h.ticdup && Refines(executed, h, k)
    ensures Refines(executed, h, k + 1)
  {
    hide RunAs, Repeats;
    forall g | 0 <= g < |executed|
      ensures g / h.ticdup < k
    {
      TicOf(g, h.ticdup, k);
    }
  }

  lemma TicOf(g: nat, d: nat, k: nat)
    requires d > 0 && g < k * d
    ensures g / d < k
  {
    var q := g / d;
    MulMono(k, q, d);
  }

  lemma ConsumeKeeps(slots: seq<TicSet>, next: nat, built: seq<Ticcmd>, received: seq<TicSet>, p: Player,
                     drone: bool, s: TicSet)
    requires |built| <= next + BACKUPTICS && |received| <= next + BACKUPTICS
    requires !drone ==> HoldsLocal(slots, next, built, p)
    requires HoldsOthers(slots, next, received, p, drone)
    ensures var slots' := slots[next % BACKUPTICS := s];
            && (!drone ==> HoldsLocal(slots', next + 1, built, p))
            && HoldsOthers(slots', next + 1, received, p, drone)
  {
    var slots' := slots[next % BACKUPTICS := s];
    forall k | next < k < next + BACKUPTICS
      ensures slots'[k % BACKUPTICS] == slots[k % BACKUPTICS]
    {
      OtherSlot(next, k);
    }
  }

  /** The slot of the next tic is the set the histories prescribe. */
  lemma NextSet(slots: seq<TicSet>, h: History, k: nat)
    requires |slots| == BACKUPTICS && Available(h, k)
    requires !h.drone ==> HoldsLocal(slots, k, h.built, h.local)
    requires HoldsOthers(slots, k, h.received, h.local, h.drone)
    ensures LiveSet(slots[k % BACKUPTICS], h, k)
  {
    assert HasOthers(slots[k % BACKUPTICS], h.received[k], h.local, h.drone);
    assert !h.drone ==> HasLocal(slots[k % BACKUPTICS], h.built[k], h.local);
  }

  lemma NextOffline(slots: seq<TicSet>, h: History, k: nat)
    requires |slots| == BACKUPTICS && !h.drone && k < |h.built|
    requires HoldsLocal(slots, k, h.built, h.local)
    ensures OfflineSet(OnlyLocal(slots[k % BACKUPTICS], h.local), h, k)
  {
    assert HasLocal(slots[k % BACKUPTICS], h.built[k], h.local);
  }

  /** The i-th run of a set. */
  function Again(s: TicSet, i: nat): TicSet {
    if i == 0 then s else Squash(s)
  }

  lemma RunsAs(s: TicSet, h: History, k: nat, i: nat, live: bool)
    requires i < h.ticdup
    requires if live then LiveSet(s, h, k) else OfflineSet(s, h, k)
    ensures (k * h.ticdup + i) / h.ticdup == k && (k * h.ticdup + i) % h.ticdup == i
    ensures RunAs(Again(s, i), h, k * h.ticdup + i, live)
  {
    DivModUnique(k * h.ticdup + i, h.ticdup, k, i);
  }

  // ---------- two clients of one server ----------

  /** The server fans out what each client built: where both clients have received tic k,
      each holds the other's command, and they hold the same for everybody else. */
  ghost predicate Echo(a: History, b: History) {
    && a.ticdup == b.ticdup > 0 && (a.drone || b.drone || a.local != b.local)
    && forall k | 0 <= k < |a.received| && k < |b.received| ::
         Available(a, k) && Available(b, k) && EchoAt(a, b, k)
  }

  ghost predicate EchoAt(a: History, b: History, k: nat)
    requires Available(a, k) && Available(b, k)
  {
    && (!a.drone ==> HasLocal(b.received[k], a.built[k], a.local))
    && (!b.drone ==> HasLocal(a.received[k], b.built[k], b.local))
    && forall i: Player | (i != a.local || a.drone) && (i != b.local || b.drone) ::
         && a.received[k].ingame[i] == b.received[k].ingame[i]
         && (a.received[k].ingame[i] ==> a.received[k].cmds[i] == b.received[k].cmds[i])
  }

  /** The same players, with the same commands. */
  ghost predicate SameTurn(s: TicSet, t: TicSet) {
    forall i: Player :: s.ingame[i] == t.ingame[i] && (s.ingame[i] ==> s.cmds[i] == t.cmds[i])
  }

  lemma LiveSetsAgree(a: History, b: History, k: nat, s: TicSet, t: TicSet)
    requires Available(a, k) && Available(b, k) && EchoAt(a, b, k)
    requires a.drone || b.drone || a.local != b.local
    requires LiveSet(s, a, k) && LiveSet(t, b, k)
    ensures SameTurn(s, t) && SameTurn(Squash(s), Squash(t))
  {
    forall i: Player
      ensures s.ingame[i] == t.ingame[i] && (s.ingame[i] ==> s.cmds[i] == t.cmds[i])
    {
      assert s.cmds[i] == CmdOf(a, k, i) && t.cmds[i] == CmdOf(b, k, i);
      assert s.ingame[i] == IngameOf(a, k, i) && t.ingame[i] == IngameOf(b, k, i);
    }
  }

  /** While both are connected, two clients run the same turns: of what they have run,
      the shorter is a prefix of the longer. */
  lemma NoDesync(ea: seq<TicSet>, a: History, liveA: nat, eb: seq<TicSet>, b: History, liveB: nat)
    requires Echo(a, b) && Refines(ea, a, liveA) && Refines(eb, b, liveB)
    ensures forall g :: 0 <= g < |ea| && g < |eb| && g / a.ticdup < liveA && g / a.ticdup < liveB ==>
      SameTurn(ea[g], eb[g])
  {
    hide LiveSet, SameTurn, EchoAt, Squash;
    forall g | 0 <= g < |ea| && g < |eb| && g / a.ticdup < liveA && g / a.ticdup < liveB
      ensures SameTurn(ea[g], eb[g])
    {
      var k, i := g / a.ticdup, g % a.ticdup;
      assert RunAs(ea[g], a, g, true) && RunAs(eb[g], b, g, true);
      var s: TicSet :| LiveSet(s, a, k) && ea[g] == Again(s, i);
      var t: TicSet :| LiveSet(t, b, k) && eb[g] == Again(t, i);
      LiveIsAvailable(s, a, k);
      LiveIsAvailable(t, b, k);
      LiveSetsAgree(a, b, k, s, t);
    }
  }

  lemma LiveIsAvailable(s: TicSet, h: History, k: nat)
    requires LiveSet(s, h, k)
    ensures Available(h, k)
  {
  }

  /** No tic runs before its command is built and, while connected, its set received. */
  lemma RanWhenReady(executed: seq<TicSet>, h: History, liveSets: nat, g: nat)
    requires h.ticdup > 0 && Refines(executed, h, liveSets) && g < |executed|
    ensures g / h.ticdup < liveSets ==> g / h.ticdup < |h.received|
    ensures !h.drone ==> g / h.ticdup < |h.built|
  {
    assert RunAs(executed[g], h, g, g / h.ticdup < liveSets);
  }

  class Loop {
    const ticdata: array<TicSet>
    const localplayer: Player
    const drone: bool
    const ticdup: nat
    const newSync: bool
    const singletics: bool
    var maketic: nat
    var recvtic: nat
    var gametic: nat
    var connected: bool
    var playeringame: seq<bool>
    /** Every call of RunTic, in order. */
    var executed: seq<TicSet>

    ghost var built: seq<Ticcmd>
    ghost var received: seq<TicSet>
    ghost var liveSets: nat

    ghost function Hist(): History
      reads this
    {
      History(localplayer, drone, ticdup, built, received)
    }

    /** The counters and the ring when next is the next tic to run. */
    ghost predicate Ring(next: nat)
      reads this, ticdata
    {
      && ticdata.Length == BACKUPTICS && ticdup > 0 && |playeringame| == NET_MAXPLAYERS
      && |built| == maketic && |received| == recvtic
      && (!drone ==> recvtic <= maketic && next <= maketic <= next + 9)
      && (drone ==> maketic == 0 && recvtic <= next + BACKUPTICS)
      && (connected ==> next <= recvtic && liveSets == next)
      && (!connected && drone ==> next == 0)
      && (!drone ==> HoldsLocal(ticdata[..], next, built, localplayer))
      && HoldsOthers(ticdata[..], next, received, localplayer, drone)
    }

    /** Between calls. */
    ghost predicate Valid()
      reads this, ticdata
    {
      && ticdup > 0 && gametic % ticdup == 0 && Ring(gametic / ticdup)
      && |executed| == gametic && liveSets <= gametic / ticdup
      && Refines(executed, Hist(), liveSets)
    }

    constructor (localplayer: Player, players: nat, drone: bool, ticdup: nat, newSync: bool,
                 singletics: bool, connected: bool)
      requires ticdup > 0
      ensures Valid() && fresh(ticdata) && executed == [] && built == [] && received == []
      ensures this.connected == connected && this.drone == drone
    {
      this.localplayer, this.drone, this.ticdup := localplayer, drone, ticdup;
      this.newSync, this.singletics, this.connected := newSync, singletics, connected;
      ticdata := new TicSet[BACKUPTICS];
      maketic, recvtic, gametic := 0, 0, 0;
      playeringame := seq(NET_MAXPLAYERS, i => i < players);
      executed, built, received, liveSets := [], [], [], 0;
    }

    /** Builds one local command, unless the loop is already far enough ahead. */
    method BuildNewTic(cmd: Ticcmd) returns (made: bool)
      requires ticdup > 0 && Ring(gametic / ticdup)
      modifies this`maketic, this`built, ticdata
      ensures Ring(gametic / ticdup)
      ensures made ==> maketic == old(maketic) + 1 && built == old(built) + [cmd]
      ensures !made ==> maketic == old(maketic) && built == old(built)
      ensures made <==> !drone && old(maketic) - gametic / ticdup <=
                          (if !newSync then 4 else if connected then 8 else 2)
    {
      var gameticdiv := gametic / ticdup;
      if drone {
        return false;
      }
      if newSync {
        if !connected && maketic - gameticdiv > 2 {
          return false;
        }
        if maketic - gameticdiv > 8 {
          return false;
        }
      } else {
        if maketic - gameticdiv >= 5 {
          return false;
        }
      }
      hide HoldsLocal, HoldsOthers;
      BuildKeeps(ticdata[..], gameticdiv, built, received, localplayer, cmd);
      ghost var slots := ticdata[..];
      var m := maketic % BACKUPTICS;
      ticdata[m] := WithLocal(ticdata[m], cmd, localplayer);
      assert ticdata[..] == slots[m := WithLocal(slots[m], cmd, localplayer)];
      built := built + [cmd];
      maketic := maketic + 1;
      return true;
    }

    /** The server completes a tic only once this client's command for it exists; a drone
        sends none, and its receive window is no longer than the ring. */
    predicate CanArrive()
      requires ticdup > 0
      reads this
    {
      connected && if drone then recvtic < gametic / ticdup + BACKUPTICS else recvtic < maketic
    }

    /** A complete set from the server; the local player's part is kept. */
    method ReceiveTic(set0: TicSet)
      requires ticdup > 0 && Ring(gametic / ticdup) && CanArrive()
      modifies this`recvtic, this`received, ticdata
      ensures Ring(gametic / ticdup) && recvtic == old(recvtic) + 1 && received == old(received) + [set0]
    {
      hide HoldsLocal, HoldsOthers;
      ReceiveKeeps(ticdata[..], gametic / ticdup, built, received, localplayer, drone, set0);
      ghost var slots := ticdata[..];
      var m := recvtic % BACKUPTICS;
      ticdata[m] := WithOthers(ticdata[m], set0, localplayer, drone);
      assert ticdata[..] == slots[m := WithOthers(slots[m], set0, localplayer, drone)];
      received := received + [set0];
      recvtic := recvtic + 1;
    }

    /** How many more sets can arrive, and how many more commands will be built. */
    function Window(): (n: int)
      requires ticdup > 0
      reads this
    {
      if !connected then 0 else if drone then gametic / ticdup + BACKUPTICS - recvtic else maketic - recvtic
    }

    function Room(linked: bool): (n: int)
      requires ticdup > 0
      reads this
    {
      if drone then 0 else gametic / ticdup + (if !newSync then 5 else if linked then 9 else 3) - maketic
    }

    /** The sets that the network has ready. */
    method Receive(arrivals: seq<TicSet>)
      requires ticdup > 0 && Ring(gametic / ticdup)
      modifies this`recvtic, this`received, ticdata
      ensures Ring(gametic / ticdup) && received == old(received) + UpTo(arrivals, old(Window()))
    {
      hide HoldsLocal, HoldsOthers;
      var i := 0;
      while i < |arrivals| && CanArrive()
        invariant Ring(gametic / ticdup)
        invariant 0 <= i <= |arrivals| && received == old(received) + arrivals[..i]
        invariant connected ==> Window() == old(Window()) - i
        invariant i > 0 ==> connected && Window() >= 0
      {
        assert arrivals[..i + 1] == arrivals[..i] + [arrivals[i]];
        ReceiveTic(arrivals[i]);
        i := i + 1;
      }
      assert arrivals[..i] == UpTo(arrivals, old(Window()));
    }

    /** As many new local commands as the clock asks for, while the loop is not too far ahead. */
    method BuildTics(cmds: seq<Ticcmd>)
      requires ticdup > 0 && Ring(gametic / ticdup)
      modifies this`maketic, this`built, ticdata
      ensures Ring(gametic / ticdup) && built == old(built) + UpTo(cmds, old(Room(connected)))
    {
      hide HoldsLocal, HoldsOthers;
      var i := 0;
      while i < |cmds|
        invariant Ring(gametic / ticdup)
        invariant 0 <= i <= |cmds| && built == old(built) + cmds[..i]
        invariant !drone ==> Room(connected) == old(Room(connected)) - i
        invariant i > 0 ==> !drone && Room(connected) >= 0
      {
        assert cmds[..i + 1] == cmds[..i] + [cmds[i]];
        var made := BuildNewTic(cmds[i]);
        if !made {
          break;
        }
        i := i + 1;
      }
      assert cmds[..i] == UpTo(cmds, old(Room(connected)));
    }

    /** The network, then the local commands. */
    method NetUpdate(poll: Poll) returns (fatal: bool)
      requires ticdup > 0 && Ring(gametic / ticdup)
      modifies this`maketic, this`recvtic, this`connected, this`built, this`received, ticdata
      ensures Ring(gametic / ticdup) && Grows(old(Hist()), Hist())
      ensures connected == (old(connected) && (fatal || singletics || !poll.hangup))
      ensures fatal <==> !singletics && drone && poll.hangup && old(connected)
      ensures received == old(received) + if singletics then [] else UpTo(poll.arrivals, old(Window()))
      ensures var linked := connected;
              built == old(built) + if singletics || fatal then [] else UpTo(poll.cmds, old(Room(linked)))
    {
      hide HoldsLocal, HoldsOthers;
      fatal := false;
      if singletics {
        return;
      }
      Receive(poll.arrivals);
      if poll.hangup && connected {
        if drone {
          return true;
        }
        connected := false;
      }
      BuildTics(poll.cmds);
    }

    /** The low tic that an update leaves. */
    function LowAfterUpdate(poll: Poll): nat
      requires ticdup > 0
      reads this
    {
      var linked := connected && !poll.hangup;
      Low(linked, maketic + |UpTo(poll.cmds, Room(linked))|, recvtic + |UpTo(poll.arrivals, Window())|)
    }

    /** The low tic from which a pass counts what it can run. */
    function LowAtStart(cmd: Ticcmd, poll: Poll): nat
      requires ticdup > 0
      reads this
    {
      if singletics then Low(connected, maketic + |UpTo([cmd], Room(connected))|, recvtic) else LowAfterUpdate(poll)
    }

    function Low(linked: bool, made: nat, received: nat): nat {
      if linked && (drone || received < made) then received else made
    }

    function GetLowTic(): (lowtic: nat)
      reads this
      ensures !connected ==> lowtic == maketic
      ensures connected && drone ==> lowtic == recvtic
      ensures connected && !drone ==> lowtic <= maketic && lowtic <= recvtic
                                      && (lowtic == maketic || lowtic == recvtic)
    {
      if connected && (drone || recvtic < maketic) then recvtic else maketic
    }

    predicate PlayersInGame()
      reads this
    {
      !drone || (connected && exists i :: 0 <= i < |playeringame| && playeringame[i])
    }

    /** Runs the set in a slot ticdup times, squashing it after each. */
    method RunDuplicates(m: nat, lowtic: nat, ghost next: nat) returns (aboveLowtic: bool)
      requires ticdata.Length == BACKUPTICS && m < BACKUPTICS && ticdup > 0
      requires gametic == next * ticdup == |executed| && next < lowtic
      requires if next < liveSets then LiveSet(ticdata[m], Hist(), next) else OfflineSet(ticdata[m], Hist(), next)
      requires Refines(executed, Hist(), liveSets)
      modifies this`gametic, this`playeringame, this`executed, ticdata
      ensures !aboveLowtic && gametic == (next + 1) * ticdup == |executed|
      ensures Refines(executed, Hist(), liveSets) && old(executed) <= executed
      ensures ticdata[..] == old(ticdata[..])[m := Squash(old(ticdata[m]))]
      ensures |playeringame| == NET_MAXPLAYERS
    {
      hide RunAs, Refines, LiveSet, OfflineSet, Squash;
      ghost var set0: TicSet := ticdata[m];
      ghost var slots := ticdata[..];
      var i := 0;
      while i < ticdup
        invariant i <= ticdup && |executed| == gametic == next * ticdup + i
        invariant ticdata[..] == slots[m := Again(set0, i)]
        invariant old(executed) <= executed && Refines(executed, Hist(), liveSets)
        invariant i > 0 ==> |playeringame| == NET_MAXPLAYERS && executed[next * ticdup] == set0
      {
        RunsAs(set0, Hist(), next, i, next < liveSets);
        assert ticdata[m] == Again(set0, i);
        if gametic / ticdup > lowtic {
          return true;
        }
        playeringame := ticdata[m].ingame;
        RefinesSnoc(executed, Hist(), liveSets, ticdata[m]);
        executed := executed + [ticdata[m]];
        gametic := gametic + 1;
        SquashTwice(set0);
        ticdata[m] := Squash(ticdata[m]);
        i := i + 1;
      }
      assert (next + 1) * ticdup == next * ticdup + ticdup;
      return false;
    }

    /** Runs the next set; a player alone first drops everybody else from it. */
    method RunSet(lowtic: nat) returns (aboveLowtic: bool)
      requires Valid() && gametic / ticdup < lowtic
      requires !drone ==> lowtic <= maketic
      requires connected ==> lowtic <= recvtic
      requires drone ==> connected
      modifies this`gametic, this`playeringame, this`executed, this`liveSets, ticdata
      ensures !aboveLowtic && Valid()
      ensures gametic / ticdup == old(gametic) / ticdup + 1 && old(executed) <= executed
      ensures liveSets == old(liveSets) + if connected then 1 else 0
    {
      hide HoldsLocal, HoldsOthers, Refines, LiveSet, OfflineSet, Squash, OnlyLocal;
      ghost var next := gametic / ticdup;
      ghost var slots := ticdata[..];
      var m := (gametic / ticdup) % BACKUPTICS;
      if connected {
        NextSet(slots, Hist(), next);
        RefinesOneMoreLive(executed, Hist(), next);
        liveSets := liveSets + 1;
      } else {
        NextOffline(slots, Hist(), next);
        ticdata[m] := OnlyLocal(ticdata[m], localplayer);
      }
      ghost var set0: TicSet := ticdata[m];
      aboveLowtic := RunDuplicates(m, lowtic, next);
      DivModUnique(gametic, ticdup, next + 1, 0);
      ConsumeKeeps(slots, next, built, received, localplayer, drone, Squash(set0));
      assert ticdata[..] == slots[m := Squash(set0)];
    }

    /** A call of NetUpdate between sets. */
    method Update(poll: Poll) returns (fatal: bool)
      requires Valid()
      modifies this`maketic, this`recvtic, this`connected, this`built, this`received, ticdata
      ensures Valid() && Grows(old(Hist()), Hist())
      ensures connected ==> old(connected)
      ensures fatal ==> drone && poll.hangup
      ensures drone && poll.hangup && !singletics ==> !connected || fatal
      ensures !fatal ==> GetLowTic() >= old(GetLowTic())
      ensures !fatal && !singletics ==> GetLowTic() == old(LowAfterUpdate(poll))
    {
      hide Refines, HoldsLocal, HoldsOthers;
      ghost var h := Hist();
      fatal := NetUpdate(poll);
      RefinesGrows(executed, h, Hist(), liveSets);
    }

    /** The update at the start of a pass; a single tic builds one command and does nothing else. */
    method FirstUpdate(cmd: Ticcmd, poll: Poll) returns (fatal: bool)
      requires Valid()
      modifies this`maketic, this`recvtic, this`connected, this`built, this`received, ticdata
      ensures Valid() && Grows(old(Hist()), Hist())
      ensures connected ==> old(connected)
      ensures fatal ==> drone
      ensures !fatal ==> GetLowTic() == old(LowAtStart(cmd, poll))
    {
      hide HoldsLocal, HoldsOthers, Refines, Loop.Ring;
      if singletics {
        ghost var h := Hist();
        var made := BuildNewTic(cmd);
        RefinesGrows(executed, h, Hist(), liveSets);
        fatal := false;
      } else {
        fatal := Update(poll);
      }
    }

    /** How many sets to run. Outside new_sync the clock has a say. */
    function Counts(realtics: int, available: int): (counts: int)
      ensures counts >= 1 && counts <= if available < 1 then 1 else available
      ensures newSync ==> counts >= available
      ensures !newSync ==> counts <= (if realtics < 0 then 1 else realtics + 1)
                           && counts >= (if realtics < available then realtics else available)
      ensures !newSync && 0 <= realtics < available - 1 ==> counts == realtics + 1
    {
      var counts :=
        if newSync then available
        else if realtics < available - 1 then realtics + 1
        else if realtics < available then realtics
        else available;
      if counts < 1 then 1 else counts
    }

    /** Updates until counts sets can run, unless the wait becomes a stall. */
    method WaitForTics(counts: int, lowtic0: nat, entertic: int, polls: nat -> Poll, n0: nat, ghost bound: nat)
      returns (outcome: Outcome, lowtic: nat, n: nat)
      requires Valid() && (drone ==> !singletics) && counts >= 1 && lowtic0 == GetLowTic() && n0 <= 1
      requires forall n: nat :: n >= bound ==>
        polls(n).now / ticdup - entertic >= MAX_NETGAME_STALL_TICS && (drone ==> polls(n).hangup)
      modifies this`maketic, this`recvtic, this`connected, this`built, this`received, ticdata
      ensures Valid() && Grows(old(Hist()), Hist())
      ensures connected ==> old(connected)
      ensures outcome in {Ran, Stalled, DroneDisconnected} && (outcome == DroneDisconnected ==> drone)
      ensures outcome == Ran ==>
        PlayersInGame() && lowtic == GetLowTic() && gametic / ticdup + counts <= lowtic
      ensures outcome == Stalled ==>
        && lowtic0 <= GetLowTic() < gametic / ticdup + counts && gametic / ticdup <= GetLowTic()
        && exists k: nat :: k >= n0 && polls(k).now / ticdup - entertic >= MAX_NETGAME_STALL_TICS
      ensures !drone && lowtic0 >= gametic / ticdup + counts ==> outcome == Ran
    {
      hide HoldsLocal, HoldsOthers, Refines;
      lowtic, n := lowtic0, n0;
      while !PlayersInGame() || lowtic < gametic / ticdup + counts
        invariant Valid() && Grows(old(Hist()), Hist()) && lowtic == GetLowTic()
        invariant connected ==> old(connected)
        invariant n >= n0 && lowtic >= lowtic0
        invariant !drone && lowtic0 >= gametic / ticdup + counts ==> n == n0
        invariant n > bound + 1 ==> PlayersInGame() && lowtic >= gametic / ticdup + counts
        decreases bound + 2 - n
      {
        var fatal := Update(polls(n));
        if fatal {
          return DroneDisconnected, lowtic, n;
        }
        lowtic := GetLowTic();
        if lowtic < gametic / ticdup {
          return LowticBelowGametic, lowtic, n;
        }
        if lowtic < gametic / ticdup + counts {
          if polls(n).now / ticdup - entertic >= MAX_NETGAME_STALL_TICS {
            return Stalled, lowtic, n;
          }
        }
        n := n + 1;
      }
      outcome := Ran;
    }

    /** Runs counts sets, with an update after each. */
    method RunTics(counts0: int, lowtic: nat, polls: nat -> Poll, n0: nat) returns (outcome: Outcome)
      requires Valid() && counts0 >= 1 && gametic / ticdup + counts0 <= lowtic
      requires !drone ==> lowtic <= maketic
      requires connected ==> lowtic <= recvtic
      modifies this`maketic, this`recvtic, this`connected, this`built, this`received,
               this`gametic, this`playeringame, this`executed, this`liveSets, ticdata
      ensures Valid() && Grows(old(Hist()), Hist()) && old(executed) <= executed
      ensures connected ==> old(connected)
      ensures outcome in {Ran, NoPlayers, DroneDisconnected} && (outcome != Ran ==> drone)
      ensures old(gametic) / ticdup <= gametic / ticdup <= old(gametic) / ticdup + counts0
      ensures outcome == Ran ==> gametic / ticdup == old(gametic) / ticdup + counts0
      ensures outcome == NoPlayers ==> !PlayersInGame()
    {
      hide HoldsLocal, HoldsOthers, Refines;
      var counts, n := counts0, n0;
      while counts > 0
        invariant 0 <= counts && gametic / ticdup + counts <= lowtic
        invariant Valid() && Grows(old(Hist()), Hist()) && old(executed) <= executed
        invariant connected ==> old(connected) && lowtic <= recvtic
        invariant !drone ==> lowtic <= maketic
        invariant gametic / ticdup == old(gametic) / ticdup + counts0 - counts
      {
        counts := counts - 1;
        if !PlayersInGame() {
          return NoPlayers;
        }
        var above := RunSet(lowtic);
        if above {
          return GameticAboveLowtic;
        }
        var fatal := Update(polls(n));
        n := n + 1;
        if fatal {
          return DroneDisconnected;
        }
      }
      return Ran;
    }

    /** One pass of the main loop. The n-th NetUpdate finds polls(n); from some call on the
        clock has passed the stall limit and a drone's server has gone. */
    method TryRunTics(entertic: int, realtics: int, cmd: Ticcmd, polls: nat -> Poll, ghost bound: nat)
      returns (outcome: Outcome)
      requires Valid() && (drone ==> !singletics)
      requires forall n: nat :: n >= bound ==>
        polls(n).now / ticdup - entertic >= MAX_NETGAME_STALL_TICS && (drone ==> polls(n).hangup)
      modifies this`maketic, this`recvtic, this`connected, this`built, this`received,
               this`gametic, this`playeringame, this`executed, this`liveSets, ticdata
      ensures Valid() && Grows(old(Hist()), Hist()) && old(executed) <= executed
      ensures connected ==> old(connected)
      ensures outcome != LowticBelowGametic && outcome != GameticAboveLowtic
      ensures outcome == DroneDisconnected ==> drone
      ensures outcome == Ran ==>
        gametic / ticdup ==
          old(gametic / ticdup + Counts(realtics, LowAtStart(cmd, polls(0)) - gametic / ticdup))
      ensures outcome == Stalled ==>
        && executed == old(executed) && GetLowTic() == gametic / ticdup
        && exists k: nat :: polls(k).now / ticdup - entertic >= MAX_NETGAME_STALL_TICS
      ensures !drone ==> outcome in {Ran, Stalled}
      ensures !drone && old(LowAtStart(cmd, polls(0)) > gametic / ticdup) ==> outcome == Ran
      ensures outcome == NoPlayers ==> !PlayersInGame()
    {
      hide HoldsLocal, HoldsOthers, Refines, Loop.Ring, Loop.Counts, Loop.LowAtStart, Loop.GetLowTic;
      var n: nat := if singletics then 0 else 1;
      var fatal := FirstUpdate(cmd, polls(0));
      if fatal {
        return DroneDisconnected;
      }
      var lowtic := GetLowTic();
      var counts := Counts(realtics, lowtic - gametic / ticdup);
      outcome, lowtic, n := WaitForTics(counts, lowtic, entertic, polls, n, bound);
      if outcome != Ran {
        return;
      }
      outcome := RunTics(counts, lowtic, polls, n);
    }
  }
}
