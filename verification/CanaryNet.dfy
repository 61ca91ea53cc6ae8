/** Any number of pages broadcasting arms and reports: what every reachable state keeps,
    why deliveries always end, and when two pages agree. */
module CanaryNet {
  import opened Canary
  import opened Wrappers

  /** A message on its way to one page. */
  datatype Packet = Packet(to: nat, msg: Msg)

  /** The pages, the messages in flight in no particular order, and, for the statements
      below, who launched each session, in which order, and its last completed exit. */
  datatype Net = Net(pages: seq<Option<Page>>, flight: multiset<Packet>,
                     owner: map<string, nat>, birth: map<string, nat>, exits: map<string, Report>)

  datatype Event =
    | Launch(page: nat, session: string)
    | Log(page: nat, line: Line)
    | Deliver(packet: Packet)
    | Lose(packet: Packet)

  function Copies(to: nat, msgs: seq<Msg>): seq<Packet> {
    seq(|msgs|, k requires 0 <= k < |msgs| => Packet(to, msgs[k]))
  }

  /** Copies of msgs to every page but the sender. */
  function Broadcast(n: nat, from: nat, msgs: seq<Msg>): multiset<Packet> {
    if n == 0 then multiset{}
    else if n - 1 == from then Broadcast(n - 1, from, msgs)
    else Broadcast(n - 1, from, msgs) + multiset(Copies(n - 1, msgs))
  }

  /** A page's reaction: its new state, and its messages to the others. */
  function React(net: Net, i: nat, step: Step): Net
    requires i < |net.pages|
  {
    net.(pages := net.pages[i := Some(step.page)],
         flight := net.flight + Broadcast(|net.pages|, i, step.outbound))
  }

  predicate Enabled(net: Net, e: Event) {
    match e
    case Launch(i, s) => i < |net.pages| && IsSessionId(s) && s !in net.birth
    case Log(i, line) => i < |net.pages| && net.pages[i].Some? && HonestLine(net, net.pages[i].value, line)
    case Deliver(p) => p.to < |net.pages| && p in net.flight
    case Lose(p) => p in net.flight
  }

  /** What the engine prints: digests, safe counters, and a game tic past the last exit's. */
  predicate HonestLine(net: Net, page: Page, line: Line) {
    match line
    case InputLine(i) => IsCount(i.bytes) && IsDigest(i.sha256)
    case StateLine(s) =>
      && IsCount(s.bytes) && IsDigest(s.sha256) && Identified(s)
      && (page.session in net.exits && net.exits[page.session].state.Some? && !IsComplete(page.myReport) ==>
            net.exits[page.session].state.value.gametic < s.gametic)
  }

  function Relaunched(net: Net, i: nat, s: string): Page
    requires i < |net.pages|
  {
    var previous := if net.pages[i].Some? then Some(net.pages[i].value.session) else None;
    Page(s, previous, None, None, None)
  }

  function Apply(net: Net, e: Event): Net
    requires Enabled(net, e)
  {
    match e
    case Launch(i, s) =>
      var page := Relaunched(net, i, s);
      React(net, i, Step(page, [ArmMessage(page)]))
        .(owner := net.owner[s := i], birth := net.birth[s := |net.birth|])
    case Log(i, line) =>
      var step := ReceiveCanaryLine(net.pages[i].value, line);
      var done := step.page.myReport.value;
      React(net, i, step).(exits := if IsComplete(Some(done)) then net.exits[step.page.session := done] else net.exits)
    case Deliver(p) =>
      var rest := net.(flight := net.flight - multiset{p});
      if net.pages[p.to].None? then rest
      else React(rest, p.to, ReceiveMessage(net.pages[p.to].value, p.msg))
    case Lose(p) => net.(flight := net.flight - multiset{p})
  }

  predicate Initial(net: Net) {
    net.flight == multiset{} && net.owner == map[] && net.birth == map[] && net.exits == map[]
    && forall i :: 0 <= i < |net.pages| ==> net.pages[i].None?
  }

  lemma {:induction false} BroadcastTo(n: nat, from: nat, msgs: seq<Msg>, p: Packet)
    ensures p in Broadcast(n, from, msgs) <==> p.to < n && p.to != from && p.msg in msgs
  {
    if n > 0 {
      BroadcastTo(n - 1, from, msgs, p);
      var copies := Copies(n - 1, msgs);
      if p.to == n - 1 && p.msg in msgs {
        var k :| 0 <= k < |msgs| && msgs[k] == p.msg;
        assert copies[k] == p;
      }
      assert p in copies <==> p.to == n - 1 && p.msg in msgs;
    }
  }

  lemma {:induction false} BroadcastSize(n: nat, from: nat, msgs: seq<Msg>)
    requires |msgs| <= 1
    ensures |Broadcast(n, from, msgs)| == if msgs == [] then 0 else if from < n then n - 1 else n
  {
    hide Copies;
    if n > 0 {
      BroadcastSize(n - 1, from, msgs);
      assert |Copies(n - 1, msgs)| == |msgs| by {
        CopiesSize(n - 1, msgs);
      }
    }
  }

  lemma CopiesSize(to: nat, msgs: seq<Msg>)
    ensures |Copies(to, msgs)| == |msgs|
  {
  }

  // ---------- what every reachable state keeps ----------

  /** A session known to the network; s was launched before t. */
  predicate Before(net: Net, s: string, t: string) {
    s in net.birth && t in net.birth && net.birth[s] < net.birth[t]
  }

  /** No page runs session s now. */
  ghost predicate Retired(net: Net, s: string) {
    forall i :: 0 <= i < |net.pages| && net.pages[i].Some? ==> net.pages[i].value.session != s
  }

  /** A report is no newer than its session's last exit. */
  predicate NoNewer(net: Net, m: Msg)
    requires m.Exit?
  {
    && m.session in net.exits && IsComplete(Some(net.exits[m.session]))
    && var last := net.exits[m.session];
       (last == Report(Some(m.input), Some(m.state)) || m.state.gametic < last.state.value.gametic)
  }

  ghost predicate GoodMsg(net: Net, m: Msg) {
    && m.session in net.owner && m.session in net.birth
    && match m
       case Arm(s, r) => IsValidArm(m) && (r.Some? ==> Before(net, r.value, s) && Retired(net, r.value))
       case Exit(_, _, _, _) => IsValidReport(m) && NoNewer(net, m)
  }

  ghost predicate GoodPage(net: Net, i: nat, page: Page) {
    && IsSessionId(page.session) && page.session in net.owner && net.owner[page.session] == i
    && GoodMsg(net, ArmMessage(page))
    && (page.partner.Some? ==>
          var p := page.partner.value;
          IsSessionId(p) && p in net.owner && p in net.birth && net.owner[p] != i)
    && HeldIsPaired(page)
    && (page.peerReport.Some? ==> GoodMsg(net, page.peerReport.value))
    && (page.myReport.Some? ==> GoodHalves(page.myReport.value))
    && (IsComplete(page.myReport) ==> page.session in net.exits && net.exits[page.session] == page.myReport.value)
    && (page.session in net.exits ==>
          && IsComplete(Some(net.exits[page.session]))
          && (page.myReport.Some? && page.myReport.value.state.Some? && !IsComplete(page.myReport) ==>
                net.exits[page.session].state.value.gametic < page.myReport.value.state.value.gametic))
  }

  predicate GoodHalves(r: Report) {
    && (r.input.Some? ==> IsCount(r.input.value.bytes) && IsDigest(r.input.value.sha256))
    && (r.state.Some? ==> IsCount(r.state.value.bytes) && IsDigest(r.state.value.sha256) && Identified(r.state.value))
  }

  ghost predicate Births(net: Net) {
    && net.owner.Keys == net.birth.Keys
    && (forall s :: s in net.birth ==> net.birth[s] < |net.birth|)
    && forall s :: s in net.exits ==> s in net.birth
  }

  ghost predicate Inv(net: Net) {
    && Births(net)
    && (forall i :: 0 <= i < |net.pages| && net.pages[i].Some? ==> GoodPage(net, i, net.pages[i].value))
    && (forall p :: p in net.flight ==> GoodMsg(net, p.msg) && net.owner[p.msg.session] != p.to)
  }

  lemma InitialInv(net: Net)
    requires Initial(net)
    ensures Inv(net)
  {
  }

  /** Where messages can come from after a page reacts. */
  lemma ReactFlight(net: Net, i: nat, step: Canary.Step, p: Packet)
    requires i < |net.pages|
    requires p in React(net, i, step).flight
    ensures p in net.flight || (p.to < |net.pages| && p.to != i && p.msg in step.outbound)
  {
    BroadcastTo(|net.pages|, i, step.outbound, p);
  }

  lemma LoseKeeps(net: Net, p: Packet)
    requires Inv(net) && p in net.flight
    ensures Inv(net.(flight := net.flight - multiset{p}))
  {
    var net' := net.(flight := net.flight - multiset{p});
    forall m: Msg | GoodMsg(net, m)
      ensures GoodMsg(net', m)
    {
    }
    forall i | 0 <= i < |net.pages| && net.pages[i].Some?
      ensures GoodPage(net', i, net.pages[i].value)
    {
      assert GoodPage(net, i, net.pages[i].value);
    }
  }

  /** A reaction that keeps the page's session keeps the network, if the new page and
      its messages are good. */
  lemma ReactKeeps(net: Net, i: nat, step: Canary.Step)
    requires Inv(net) && i < |net.pages| && net.pages[i].Some?
    requires step.page.session == net.pages[i].value.session
    requires GoodPage(net, i, step.page)
    requires forall m :: m in step.outbound ==> GoodMsg(net, m) && m.session == step.page.session
    ensures Inv(React(net, i, step))
  {
    var net' := React(net, i, step);
    forall m: Msg | GoodMsg(net, m)
      ensures GoodMsg(net', m)
    {
      if m.Arm? && m.supersedes.Some? {
        assert Retired(net, m.supersedes.value);
        assert Retired(net', m.supersedes.value);
      }
    }
    forall k | 0 <= k < |net'.pages| && net'.pages[k].Some?
      ensures GoodPage(net', k, net'.pages[k].value)
    {
      assert GoodPage(net, k, net'.pages[k].value);
    }
    forall p | p in net'.flight
      ensures GoodMsg(net', p.msg) && net'.owner[p.msg.session] != p.to
    {
      ReactFlight(net, i, step, p);
    }
  }

  lemma DeliverKeeps(net: Net, p: Packet)
    requires Inv(net) && Enabled(net, Deliver(p))
    ensures Inv(Apply(net, Deliver(p)))
  {
    LoseKeeps(net, p);
    var rest := net.(flight := net.flight - multiset{p});
    if net.pages[p.to].Some? {
      var page := net.pages[p.to].value;
      var step := ReceiveMessage(page, p.msg);
      assert GoodMsg(net, p.msg) && GoodPage(rest, p.to, page);
      assert GoodMsg(rest, p.msg);
      PairingKept(page, p.msg, InputLine(Input(0, "")));
      ReactKeeps(rest, p.to, step);
    }
  }

  /** A page that completes an exit completes a later one than before, or repeats it. */
  lemma LineAdvances(net: Net, i: nat, page: Page, line: Line)
    requires GoodPage(net, i, page) && HonestLine(net, page, line)
    ensures var next := ReceiveCanaryLine(page, line).page;
            && next.session == page.session && next.partner == page.partner
            && next.peerReport == page.peerReport && next.supersedes == page.supersedes
            && GoodHalves(next.myReport.value)
            && (IsComplete(next.myReport) && page.session in net.exits ==>
                  net.exits[page.session] == next.myReport.value
                  || net.exits[page.session].state.value.gametic < next.myReport.value.state.value.gametic)
            && (!IsComplete(next.myReport) && next.myReport.value.state.Some? && page.session in net.exits ==>
                  net.exits[page.session].state.value.gametic < next.myReport.value.state.value.gametic)
  {
  }

  lemma ExitsGrow(net: Net, net': Net, s: string, done: Report, m: Msg)
    requires net' == net.(exits := net.exits[s := done], pages := net'.pages, flight := net'.flight)
    requires IsComplete(Some(done))
    requires s in net.exits && IsComplete(Some(net.exits[s])) ==>
      net.exits[s] == done || net.exits[s].state.value.gametic < done.state.value.gametic
    requires m.Exit? && NoNewer(net, m)
    ensures NoNewer(net', m)
  {
  }

  lemma LogKeepsMsg(net: Net, i: nat, line: Line, m: Msg)
    requires Inv(net) && Enabled(net, Log(i, line)) && GoodMsg(net, m)
    ensures GoodMsg(Apply(net, Log(i, line)), m)
  {
    hide Broadcast;
    var page := net.pages[i].value;
    var net' := Apply(net, Log(i, line));
    var done := ReceiveCanaryLine(page, line).page.myReport.value;
    LineAdvances(net, i, page, line);
    if m.Exit? {
      if IsComplete(Some(done)) {
        ExitsGrow(net, net', page.session, done, m);
      }
    } else if m.supersedes.Some? {
      assert Retired(net, m.supersedes.value);
      assert Retired(net', m.supersedes.value);
    }
  }

  lemma LogKeepsPage(net: Net, i: nat, line: Line, k: nat)
    requires Inv(net) && Enabled(net, Log(i, line)) && k < |net.pages|
    ensures var net' := Apply(net, Log(i, line)); net'.pages[k].Some? ==> GoodPage(net', k, net'.pages[k].value)
  {
    hide ReceiveCanaryLine, Broadcast, GoodMsg, HonestLine, IsValidReport;
    var net' := Apply(net, Log(i, line));
    LineAdvances(net, i, net.pages[i].value, line);
    if net.pages[k].Some? {
      var page := net.pages[k].value;
      assert GoodPage(net, k, page);
      LogKeepsMsg(net, i, line, ArmMessage(page));
      if page.peerReport.Some? {
        LogKeepsMsg(net, i, line, page.peerReport.value);
      }
    }
  }

  lemma LogKeepsPacket(net: Net, i: nat, line: Line, p: Packet)
    requires Inv(net) && Enabled(net, Log(i, line)) && p in Apply(net, Log(i, line)).flight
    ensures var net' := Apply(net, Log(i, line)); GoodMsg(net', p.msg) && net'.owner[p.msg.session] != p.to
  {
    hide Broadcast;
    var page := net.pages[i].value;
    ReactFlight(net, i, ReceiveCanaryLine(page, line), p);
    if p in net.flight {
      LogKeepsMsg(net, i, line, p.msg);
    } else {
      LineAdvances(net, i, page, line);
      assert GoodPage(net, i, page);
    }
  }

  lemma LogKeeps(net: Net, i: nat, line: Line)
    requires Inv(net) && Enabled(net, Log(i, line))
    ensures Inv(Apply(net, Log(i, line)))
  {
    hide GoodPage, ReceiveCanaryLine, HonestLine, Broadcast, NoNewer, Retired, Before, IsValidReport;
    var net' := Apply(net, Log(i, line));
    forall k | 0 <= k < |net'.pages| && net'.pages[k].Some?
      ensures GoodPage(net', k, net'.pages[k].value)
    {
      LogKeepsPage(net, i, line, k);
    }
    forall p | p in net'.flight
      ensures GoodMsg(net', p.msg) && net'.owner[p.msg.session] != p.to
    {
      LogKeepsPacket(net, i, line, p);
    }
    LogKeepsBirths(net, i, line);
  }

  lemma LogKeepsBirths(net: Net, i: nat, line: Line)
    requires Inv(net) && Enabled(net, Log(i, line))
    ensures Births(Apply(net, Log(i, line)))
  {
    assert GoodPage(net, i, net.pages[i].value);
  }

  lemma LaunchKeepsMsg(net: Net, i: nat, s: string, m: Msg)
    requires Inv(net) && Enabled(net, Launch(i, s)) && GoodMsg(net, m)
    ensures GoodMsg(Apply(net, Launch(i, s)), m)
  {
    hide Broadcast;
    var net' := Apply(net, Launch(i, s));
    if m.Arm? && m.supersedes.Some? {
      assert Retired(net, m.supersedes.value);
      assert Retired(net', m.supersedes.value);
    }
  }

  /** The session a relaunch replaces no longer runs anywhere. */
  lemma RelaunchRetires(net: Net, i: nat, s: string)
    requires Inv(net) && Enabled(net, Launch(i, s)) && net.pages[i].Some?
    ensures Retired(Apply(net, Launch(i, s)), net.pages[i].value.session)
  {
    hide Broadcast, GoodMsg;
    var t := net.pages[i].value.session;
    assert GoodPage(net, i, net.pages[i].value);
    forall k | 0 <= k < |net.pages| && k != i && net.pages[k].Some?
      ensures net.pages[k].value.session != t
    {
      assert GoodPage(net, k, net.pages[k].value);
    }
  }

  lemma LaunchArm(net: Net, i: nat, s: string)
    requires Inv(net) && Enabled(net, Launch(i, s))
    ensures GoodMsg(Apply(net, Launch(i, s)), ArmMessage(Relaunched(net, i, s)))
  {
    hide Broadcast, Retired;
    if net.pages[i].Some? {
      RelaunchRetires(net, i, s);
      assert GoodPage(net, i, net.pages[i].value);
    }
  }

  lemma LaunchKeeps(net: Net, i: nat, s: string)
    requires Inv(net) && Enabled(net, Launch(i, s))
    ensures Inv(Apply(net, Launch(i, s)))
  {
    hide Broadcast, Retired, NoNewer, IsValidReport;
    var page := Relaunched(net, i, s);
    var net' := Apply(net, Launch(i, s));
    LaunchArm(net, i, s);
    forall k | 0 <= k < |net'.pages| && net'.pages[k].Some?
      ensures GoodPage(net', k, net'.pages[k].value)
    {
      if k != i {
        var other := net.pages[k].value;
        assert GoodPage(net, k, other);
        LaunchKeepsMsg(net, i, s, ArmMessage(other));
        if other.peerReport.Some? {
          LaunchKeepsMsg(net, i, s, other.peerReport.value);
        }
      }
    }
    forall p | p in net'.flight
      ensures GoodMsg(net', p.msg) && net'.owner[p.msg.session] != p.to
    {
      ReactFlight(net, i, Step(page, [ArmMessage(page)]), p);
      if p in net.flight {
        LaunchKeepsMsg(net, i, s, p.msg);
      }
    }
  }

  /** Every event keeps the network's invariant. */
  lemma EventKeeps(net: Net, e: Event)
    requires Inv(net) && Enabled(net, e)
    ensures Inv(Apply(net, e))
  {
    match e {
      case Launch(i, s) => LaunchKeeps(net, i, s);
      case Log(i, line) => LogKeeps(net, i, line);
      case Deliver(p) => DeliverKeeps(net, p);
      case Lose(p) => LoseKeeps(net, p);
    }
  }

  // ---------- runs ----------

  ghost predicate Legal(net: Net, es: seq<Event>)
    decreases |es|, 0
  {
    es == [] ||
    var front := es[..|es| - 1];
    Legal(net, front) && Enabled(After(net, front), es[|es| - 1])
  }

  /** The network after a run. */
  ghost function After(net: Net, es: seq<Event>): Net
    requires Legal(net, es)
    decreases |es|, 1
  {
    if es == [] then net else Apply(After(net, es[..|es| - 1]), es[|es| - 1])
  }

  lemma {:induction false} RunKeeps(net: Net, es: seq<Event>)
    requires Inv(net) && Legal(net, es)
    ensures Inv(After(net, es)) && |After(net, es).pages| == |net.pages|
  {
    hide Inv;
    if es != [] {
      RunKeeps(net, es[..|es| - 1]);
      EventKeeps(After(net, es[..|es| - 1]), es[|es| - 1]);
    }
  }

  /** Event m of the run is page j completing an exit, and r is the report it publishes:
      j runs r's session, is armed with the partner r names, and holds r's halves. */
  ghost predicate Publishes(net: Net, es: seq<Event>, m: nat, j: nat, r: Msg)
    requires m < |es| && Legal(net, es[..m]) && r.Exit?
  {
    var before := After(net, es[..m]);
    && es[m].Log? && es[m].page == j && j < |before.pages| && before.pages[j].Some?
    && var page := ReceiveCanaryLine(before.pages[j].value, es[m].line).page;
       && page.session == r.session && page.partner == Some(r.partner)
       && page.myReport == Some(Report(Some(r.input), Some(r.state)))
  }

  ghost predicate Published(net: Net, es: seq<Event>, r: Msg)
    requires Legal(net, es) && r.Exit?
  {
    exists m, j :: 0 <= m < |es| && 0 <= j < |net.pages| && Legal(net, es[..m]) && Publishes(net, es, m, j, r)
  }

  lemma PublishedStays(net: Net, es: seq<Event>, e: Event, r: Msg)
    requires Legal(net, es + [e]) && Legal(net, es) && r.Exit? && Published(net, es, r)
    ensures Published(net, es + [e], r)
  {
    var m, j :| 0 <= m < |es| && 0 <= j < |net.pages| && Legal(net, es[..m]) && Publishes(net, es, m, j, r);
    assert (es + [e])[..m] == es[..m];
    assert Publishes(net, es + [e], m, j, r);
  }

  lemma PublishedNow(net: Net, es: seq<Event>, i: nat, line: Line, r: Msg)
    requires Legal(net, es + [Log(i, line)]) && Legal(net, es) && r.Exit?
    requires Enabled(After(net, es), Log(i, line)) && |After(net, es).pages| == |net.pages|
    requires r in ReceiveCanaryLine(After(net, es).pages[i].value, line).outbound
    ensures Published(net, es + [Log(i, line)], r)
  {
    var es' := es + [Log(i, line)];
    assert es'[..|es|] == es;
    assert Publishes(net, es', |es|, i, r);
  }

  /** A report the network holds: in flight, or on a page. */
  ghost predicate Around(net: Net, r: Msg) {
    (exists p :: p in net.flight && p.msg == r)
    || exists i :: 0 <= i < |net.pages| && net.pages[i].Some? && net.pages[i].value.peerReport == Some(r)
  }

  lemma FlightBefore(net: Net, e: Event, p: Packet)
    requires Enabled(net, e) && p.msg.Exit? && p in Apply(net, e).flight
    ensures p in net.flight || (e.Log? && p.msg in ReceiveCanaryLine(net.pages[e.page].value, e.line).outbound)
  {
    hide ReceiveCanaryLine, Broadcast, HonestLine;
    match e {
      case Launch(i, s) =>
        var page := Relaunched(net, i, s);
        ReactFlight(net, i, Step(page, [ArmMessage(page)]), p);
      case Log(i, line) => ReactFlight(net, i, ReceiveCanaryLine(net.pages[i].value, line), p);
      case Deliver(q) =>
        var rest := net.(flight := net.flight - multiset{q});
        assert p in rest.flight ==> p in net.flight;
        if net.pages[q.to].Some? {
          ReactFlight(rest, q.to, ReceiveMessage(net.pages[q.to].value, q.msg), p);
        }
      case Lose(q) =>
    }
  }

  lemma HeldBefore(net: Net, e: Event, i: nat)
    requires Enabled(net, e) && i < |net.pages|
    requires Apply(net, e).pages[i].Some? && Apply(net, e).pages[i].value.peerReport.Some?
    ensures var r := Apply(net, e).pages[i].value.peerReport;
            || (net.pages[i].Some? && net.pages[i].value.peerReport == r)
            || (e.Deliver? && e.packet in net.flight && Some(e.packet.msg) == r)
  {
    hide Broadcast, HonestLine;
  }

  /** A report around after an event was around before it, or is being published. */
  lemma AroundBefore(net: Net, e: Event, r: Msg)
    requires Enabled(net, e) && r.Exit? && Around(Apply(net, e), r)
    ensures Around(net, r)
         || (e.Log? && r in ReceiveCanaryLine(net.pages[e.page].value, e.line).outbound)
  {
    hide ReceiveCanaryLine;
    var net' := Apply(net, e);
    SamePages(net, e);
    hide Apply, Enabled;
    if p :| p in net'.flight && p.msg == r {
      FlightBefore(net, e, p);
    } else {
      var i :| 0 <= i < |net'.pages| && net'.pages[i].Some? && net'.pages[i].value.peerReport == Some(r);
      HeldBefore(net, e, i);
    }
  }

  lemma SamePages(net: Net, e: Event)
    requires Enabled(net, e)
    ensures |Apply(net, e).pages| == |net.pages|
    ensures e.Log? ==> e.page < |net.pages| && net.pages[e.page].Some?
  {
  }

  /** In every run, each report around was published earlier by a page armed as it says. */
  lemma {:induction false} Provenance(net: Net, es: seq<Event>, r: Msg)
    requires Initial(net) && Legal(net, es) && r.Exit? && Around(After(net, es), r)
    ensures Published(net, es, r)
  {
    hide Published, Around, Apply, Enabled;
    if es == [] {
      NothingAround(net, r);
    } else {
      var front, e := es[..|es| - 1], es[|es| - 1];
      assert es == front + [e];
      InitialInv(net);
      RunKeeps(net, front);
      AroundBefore(After(net, front), e, r);
      if Around(After(net, front), r) {
        Provenance(net, front, r);
        PublishedStays(net, front, e, r);
      } else {
        PublishedNow(net, front, e.page, e.line, r);
      }
    }
  }

  lemma NothingAround(net: Net, r: Msg)
    requires Initial(net)
    ensures !Around(net, r)
  {
  }

  lemma {:induction false} OwnerStays(net: Net, es: seq<Event>, m: nat, s: string)
    requires Inv(net) && Legal(net, es) && m <= |es| && Legal(net, es[..m])
    requires s in After(net, es[..m]).owner
    ensures s in After(net, es).owner && After(net, es).owner[s] == After(net, es[..m]).owner[s]
    decreases |es|
  {
    hide Inv;
    if m < |es| {
      var front, e := es[..|es| - 1], es[|es| - 1];
      assert front[..m] == es[..m];
      OwnerStays(net, front, m, s);
      RunKeeps(net, front);
      OwnerKept(After(net, front), e, s);
    } else {
      assert es[..m] == es;
    }
  }

  lemma OwnerKept(net: Net, e: Event, s: string)
    requires Inv(net) && Enabled(net, e) && s in net.owner
    ensures s in Apply(net, e).owner && Apply(net, e).owner[s] == net.owner[s]
  {
  }

  lemma OwnerPublishes(net: Net, es: seq<Event>, m: nat, j: nat, r: Msg)
    requires Inv(net) && Legal(net, es) && m < |es| && Legal(net, es[..m]) && r.Exit?
    requires Publishes(net, es, m, j, r)
    ensures r.session in After(net, es).owner && After(net, es).owner[r.session] == j
  {
    hide Legal, Apply;
    var before := After(net, es[..m]);
    RunKeeps(net, es[..m]);
    assert GoodPage(before, j, before.pages[j].value);
    OwnerStays(net, es, m, r.session);
  }

  /** A page that shows MATCH is right: earlier, another page running the session it is
      paired with, armed with this page's session, completed the very same exit report. */
  lemma MatchIsReal(net: Net, es: seq<Event>, i: nat)
    requires Initial(net) && Legal(net, es)
    requires var last := After(net, es);
             && i < |last.pages| && last.pages[i].Some?
             && (last.pages[i].value.peerReport.Some? ==> last.pages[i].value.peerReport.value.Exit?)
             && CompareReports(last.pages[i].value.myReport, last.pages[i].value.peerReport).aggregate == MATCH
    ensures var page := After(net, es).pages[i].value;
            exists m, j :: 0 <= m < |es| && 0 <= j < |net.pages| && j != i && Legal(net, es[..m])
              && page.partner.Some? && IsComplete(page.myReport)
              && Publishes(net, es, m, j, Exit(page.partner.value, page.session,
                                               page.myReport.value.input.value, page.myReport.value.state.value))
  {
    hide Legal, Publishes, Apply;
    var last := After(net, es);
    var page := last.pages[i].value;
    InitialInv(net);
    RunKeeps(net, es);
    assert GoodPage(last, i, page);
    MatchMeans(page.myReport, page.peerReport);
    var r := page.peerReport.value;
    assert Around(last, r);
    Provenance(net, es, r);
    var m, j :| 0 <= m < |es| && 0 <= j < |net.pages| && Legal(net, es[..m]) && Publishes(net, es, m, j, r);
    OwnerPublishes(net, es, m, j, r);
    assert j != i;
  }

  // ---------- deliveries end ----------

  /** How many partners a page can still adopt: only ever a session launched later. */
  function Potential(birth: map<string, nat>, page: Option<Page>): nat {
    if page.None? then 0
    else match page.value.partner
      case None => |birth| + 1
      case Some(p) => if p in birth && birth[p] <= |birth| then |birth| - birth[p] else 0
  }

  function TotalPotential(birth: map<string, nat>, pages: seq<Option<Page>>): nat {
    if pages == [] then 0
    else TotalPotential(birth, pages[..|pages| - 1]) + Potential(birth, pages[|pages| - 1])
  }

  /** Bounds the deliveries to come: each adoption pays for the arms it broadcasts. */
  function Weight(net: Net): nat {
    |net.flight| + |net.pages| * TotalPotential(net.birth, net.pages)
  }

  lemma {:induction false} TotalUpdate(birth: map<string, nat>, pages: seq<Option<Page>>, i: nat, page: Option<Page>)
    requires i < |pages|
    ensures TotalPotential(birth, pages[i := page]) + Potential(birth, pages[i])
         == TotalPotential(birth, pages) + Potential(birth, page)
  {
    hide Potential;
    var n := |pages| - 1;
    if i < n {
      TotalUpdate(birth, pages[..n], i, page);
      assert pages[i := page][..n] == pages[..n][i := page];
    } else {
      assert pages[i := page][..n] == pages[..n];
    }
  }

  /** Adopting a partner lowers the page's potential; nothing else touches it. */
  lemma AdoptionPays(net: Net, p: Packet)
    requires Inv(net) && Enabled(net, Deliver(p)) && net.pages[p.to].Some?
    ensures var page := net.pages[p.to].value;
            var step := ReceiveMessage(page, p.msg);
            if step.outbound == [] then Potential(net.birth, Some(step.page)) == Potential(net.birth, Some(page))
            else |step.outbound| == 1 && Potential(net.birth, Some(step.page)) < Potential(net.birth, Some(page))
  {
    var page := net.pages[p.to].value;
    assert GoodMsg(net, p.msg) && GoodPage(net, p.to, page);
  }

  lemma {:induction false} Pays(n: nat, before: nat, after: nat)
    requires after < before
    ensures n * after + n <= n * before
  {
    if n > 0 {
      Pays(n - 1, before, after);
      assert n * after == (n - 1) * after + after && n * before == (n - 1) * before + before;
    }
  }

  /** Every delivery, and every loss, lowers the weight. */
  lemma DeliveryLowers(net: Net, e: Event)
    requires Inv(net) && Enabled(net, e) && (e.Deliver? || e.Lose?)
    ensures Weight(Apply(net, e)) < Weight(net)
  {
    hide Potential, TotalPotential, Broadcast, ReceiveMessage, Inv;
    var p := e.packet;
    var rest := net.(flight := net.flight - multiset{p});
    assert |rest.flight| == |net.flight| - 1;
    if e.Deliver? && net.pages[p.to].Some? {
      var step := ReceiveMessage(net.pages[p.to].value, p.msg);
      AdoptionPays(net, p);
      TotalUpdate(net.birth, net.pages, p.to, Some(step.page));
      BroadcastSize(|net.pages|, p.to, step.outbound);
      var total, total' := TotalPotential(net.birth, net.pages),
                           TotalPotential(net.birth, net.pages[p.to := Some(step.page)]);
      if step.outbound != [] {
        Pays(|net.pages|, total, total');
      }
    }
  }

  ghost predicate OnlyDeliveries(es: seq<Event>) {
    forall k :: 0 <= k < |es| ==> es[k].Deliver? || es[k].Lose?
  }

  /** With no further launches or log lines, no run is longer than the weight. */
  lemma {:induction false} DeliveriesEnd(net: Net, es: seq<Event>)
    requires Inv(net) && Legal(net, es) && OnlyDeliveries(es)
    ensures |es| + Weight(After(net, es)) <= Weight(net)
  {
    hide Inv, Weight, Apply, Enabled;
    if es != [] {
      var front := es[..|es| - 1];
      DeliveriesEnd(net, front);
      RunKeeps(net, front);
      DeliveryLowers(After(net, front), es[|es| - 1]);
    }
  }

  // ---------- two partners agree ----------

  ghost predicate Mutual(net: Net, i: nat, j: nat) {
    && i < |net.pages| && j < |net.pages| && i != j && net.pages[i].Some? && net.pages[j].Some?
    && net.pages[i].value.partner == Some(net.pages[j].value.session)
    && net.pages[j].value.partner == Some(net.pages[i].value.session)
  }

  /** An event that neither relaunches i or j nor loses a message to them. */
  predicate Calm(e: Event, i: nat, j: nat) {
    && (e.Launch? ==> e.page != i && e.page != j)
    && (e.Lose? ==> e.packet.to != i && e.packet.to != j)
  }

  /** A page keeps its partner while the partner's session runs. */
  lemma PartnerKept(net: Net, p: Packet, j: nat)
    requires Inv(net) && Enabled(net, Deliver(p)) && net.pages[p.to].Some?
    requires j < |net.pages| && net.pages[j].Some?
    requires net.pages[p.to].value.partner == Some(net.pages[j].value.session)
    ensures var page := ReceiveMessage(net.pages[p.to].value, p.msg).page;
            page.partner == net.pages[p.to].value.partner && page.session == net.pages[p.to].value.session
            && page.myReport == net.pages[p.to].value.myReport
  {
    hide AcceptsReport, IsValidReport, NoNewer;
    assert GoodMsg(net, p.msg);
    if p.msg.Arm? && p.msg.supersedes.Some? {
      assert Retired(net, p.msg.supersedes.value);
    }
  }

  /** Only a partner's relaunch can end a partnership. */
  lemma MutualKept(net: Net, e: Event, i: nat, j: nat)
    requires Inv(net) && Enabled(net, e) && Mutual(net, i, j) && Calm(e, i, j)
    ensures var net' := Apply(net, e);
            && Mutual(net', i, j)
            && net'.pages[i].value.session == net.pages[i].value.session
            && net'.pages[j].value.session == net.pages[j].value.session
  {
    hide Broadcast, HonestLine, ReceiveMessage, Inv;
    if e.Deliver? && e.packet.to == i {
      PartnerKept(net, e.packet, j);
    } else if e.Deliver? && e.packet.to == j {
      PartnerKept(net, e.packet, i);
    }
  }

  /** The report page j last completed, addressed to page i. */
  ghost function Last(net: Net, j: nat, i: nat): Msg
    requires Mutual(net, i, j) && net.pages[j].value.session in net.exits
    requires IsComplete(Some(net.exits[net.pages[j].value.session]))
  {
    var s := net.pages[j].value.session;
    Exit(s, net.pages[i].value.session, net.exits[s].input.value, net.exits[s].state.value)
  }

  /** Page j's last report is on its way to page i, or page i holds it. */
  ghost predicate Told(net: Net, j: nat, i: nat)
    requires Mutual(net, i, j)
  {
    var s := net.pages[j].value.session;
    && s in net.exits && IsComplete(Some(net.exits[s]))
    && var r := Last(net, j, i);
       IsValidReport(r) && (Packet(i, r) in net.flight || net.pages[i].value.peerReport == Some(r))
  }

  /** A delivery to page i is accepted unless it is older than what it holds. */
  lemma ToldByDelivery(net: Net, p: Packet, i: nat, j: nat)
    requires Inv(net) && Enabled(net, Deliver(p)) && Mutual(net, i, j) && Told(net, j, i)
    requires Mutual(Apply(net, Deliver(p)), i, j)
    ensures Told(Apply(net, Deliver(p)), j, i)
  {
    hide Broadcast, HonestLine;
    var r := Last(net, j, i);
    var page := net.pages[i].value;
    var rest := net.(flight := net.flight - multiset{p});
    assert GoodMsg(net, p.msg) && GoodPage(net, i, page) && GoodPage(net, j, net.pages[j].value);
    MutualKept(net, Deliver(p), i, j);
    if p == Packet(i, r) {
      if page.peerReport.Some? {
        assert GoodMsg(net, page.peerReport.value);
      }
    } else if Packet(i, r) in net.flight {
      assert Packet(i, r) in rest.flight;
    }
  }

  lemma ToldByLine(net: Net, k: nat, line: Line, i: nat, j: nat)
    requires Inv(net) && Enabled(net, Log(k, line)) && Mutual(net, i, j)
    requires Told(net, j, i) || (k == j && IsComplete(ReceiveCanaryLine(net.pages[j].value, line).page.myReport))
    requires Mutual(Apply(net, Log(k, line)), i, j)
    ensures Told(Apply(net, Log(k, line)), j, i)
  {
    var page := net.pages[k].value;
    var step := ReceiveCanaryLine(page, line);
    assert GoodPage(net, k, page) && GoodPage(net, i, net.pages[i].value) && GoodPage(net, j, net.pages[j].value);
    LineAdvances(net, k, page, line);
    if k == j && IsComplete(step.page.myReport) {
      var r := Last(Apply(net, Log(k, line)), j, i);
      assert step.outbound == [r];
      BroadcastTo(|net.pages|, j, step.outbound, Packet(i, r));
    }
  }

  lemma ToldKept(net: Net, e: Event, i: nat, j: nat)
    requires Inv(net) && Enabled(net, e) && Mutual(net, i, j) && Calm(e, i, j) && Told(net, j, i)
    requires Mutual(Apply(net, e), i, j)
    ensures Told(Apply(net, e), j, i)
  {
    hide Inv, HonestLine, Broadcast, ReceiveMessage, ReceiveCanaryLine, IsValidReport;
    match e {
      case Deliver(p) => ToldByDelivery(net, p, i, j);
      case Log(k, line) => ToldByLine(net, k, line, i, j);
      case Launch(k, s) =>
        var p := Packet(i, Last(net, j, i));
        assert p in net.flight ==> p in Apply(net, e).flight;
      case Lose(p) =>
    }
  }

  ghost predicate CalmRun(es: seq<Event>, i: nat, j: nat) {
    forall k :: 0 <= k < |es| ==> Calm(es[k], i, j)
  }

  lemma {:induction false} MutualRun(net: Net, es: seq<Event>, i: nat, j: nat)
    requires Inv(net) && Legal(net, es) && Mutual(net, i, j) && CalmRun(es, i, j)
    ensures Mutual(After(net, es), i, j)
  {
    hide Inv, Apply, Enabled, Mutual, Calm;
    if es != [] {
      var front := es[..|es| - 1];
      MutualRun(net, front, i, j);
      RunKeeps(net, front);
      MutualKept(After(net, front), es[|es| - 1], i, j);
    }
  }

  /** Event m is a log line that completes an exit report on page j. */
  ghost predicate CompletesAt(net: Net, es: seq<Event>, m: nat, j: nat) {
    && m < |es| && Legal(net, es[..m]) && es[m].Log? && es[m].page == j
    && var before := After(net, es[..m]);
       j < |before.pages| && before.pages[j].Some?
       && IsComplete(ReceiveCanaryLine(before.pages[j].value, es[m].line).page.myReport)
  }

  /** Once a partner has completed an exit, its last report is on its way or held. */
  lemma {:induction false} ToldRun(net: Net, es: seq<Event>, i: nat, j: nat, m: nat)
    requires Inv(net) && Legal(net, es) && Mutual(net, i, j) && CalmRun(es, i, j)
    requires CompletesAt(net, es, m, j)
    ensures Mutual(After(net, es), i, j) && Told(After(net, es), j, i)
  {
    hide Inv, Apply, Enabled, Mutual, Calm, Told;
    var front, e := es[..|es| - 1], es[|es| - 1];
    MutualRun(net, front, i, j);
    MutualRun(net, es, i, j);
    RunKeeps(net, front);
    if m == |es| - 1 {
      ToldByLine(After(net, front), j, e.line, i, j);
    } else {
      assert front[..m] == es[..m];
      ToldRun(net, front, i, j, m);
      ToldKept(After(net, front), e, i, j);
    }
  }

  /** From mutual partnership, once both have completed an exit and their messages have
      arrived, two pages whose last exits are the same show the same verdict, and it is
      not PENDING: MATCH exactly when the reports are equal. */
  lemma PartnersAgree(net: Net, es: seq<Event>, i: nat, j: nat, m: nat, n: nat)
    requires Inv(net) && Legal(net, es) && Mutual(net, i, j) && CalmRun(es, i, j)
    requires CompletesAt(net, es, m, j) && CompletesAt(net, es, n, i)
    requires forall p :: p in After(net, es).flight ==> p.to != i && p.to != j
    requires var last := After(net, es);
             && |last.pages| == |net.pages| && i < |last.pages| && j < |last.pages|
             && last.pages[i].Some? && IsComplete(last.pages[i].value.myReport)
             && last.pages[j].Some? && IsComplete(last.pages[j].value.myReport)
             && SameExit(last.pages[i].value.myReport.value.state.value,
                         last.pages[j].value.myReport.value.state.value)
    ensures var a, b := After(net, es).pages[i].value, After(net, es).pages[j].value;
            && a.peerReport.Some? && a.peerReport.value.Exit? && b.peerReport.Some? && b.peerReport.value.Exit?
            && CompareReports(a.myReport, a.peerReport) == CompareReports(b.myReport, b.peerReport)
            && CompareReports(a.myReport, a.peerReport).aggregate
               == if a.myReport == b.myReport then MATCH else MISMATCH
  {
    hide Apply, Enabled, Calm, Legal, CompletesAt;
    var last := After(net, es);
    ToldRun(net, es, i, j, m);
    ToldRun(net, es, j, i, n) by {
      CalmEither(es, i, j);
    }
    RunKeeps(net, es);
    Agreed(last, i, j);
  }

  lemma CalmEither(es: seq<Event>, i: nat, j: nat)
    requires CalmRun(es, i, j)
    ensures CalmRun(es, j, i)
  {
  }

  lemma Agreed(net: Net, i: nat, j: nat)
    requires Inv(net) && Mutual(net, i, j) && Mutual(net, j, i) && Told(net, j, i) && Told(net, i, j)
    requires forall p :: p in net.flight ==> p.to != i && p.to != j
    requires IsComplete(net.pages[i].value.myReport) && IsComplete(net.pages[j].value.myReport)
    requires SameExit(net.pages[i].value.myReport.value.state.value, net.pages[j].value.myReport.value.state.value)
    ensures var a, b := net.pages[i].value, net.pages[j].value;
            && a.peerReport.Some? && a.peerReport.value.Exit? && b.peerReport.Some? && b.peerReport.value.Exit?
            && CompareReports(a.myReport, a.peerReport) == CompareReports(b.myReport, b.peerReport)
            && CompareReports(a.myReport, a.peerReport).aggregate
               == if a.myReport == b.myReport then MATCH else MISMATCH
  {
    var a, b := net.pages[i].value, net.pages[j].value;
    assert GoodPage(net, i, a) && GoodPage(net, j, b);
    assert Packet(i, Last(net, j, i)) !in net.flight && Packet(j, Last(net, i, j)) !in net.flight;
    assert a.peerReport == Some(Last(net, j, i)) && b.peerReport == Some(Last(net, i, j));
  }

  // ---------- two pages find each other ----------

  /** Page a has no partner, or the one that page b replaces. */
  predicate Open(a: Page, b: Page) {
    a.partner.None? || a.partner == b.supersedes
  }

  /** Page i is partnered with page j's session, or will be: the arm of page j is on its way to it, or
      its own arm is on its way to page j, which will answer it. */
  predicate Settling(net: Net, i: nat, j: nat)
    requires i < |net.pages| && j < |net.pages|
  {
    net.pages[i].Some? ==>
      var a := net.pages[i].value;
      if net.pages[j].None? then a.partner.None?
      else
        var b := net.pages[j].value;
        || a.partner == Some(b.session)
        || (Packet(i, ArmMessage(b)) in net.flight && Open(a, b))
        || (a.partner.None? && Packet(j, ArmMessage(a)) in net.flight && Open(b, a))
  }

  /** Arms on their way to page i are those of the session that page j runs. */
  ghost predicate Current(net: Net, i: nat, j: nat)
    requires j < |net.pages|
  {
    forall p :: p in net.flight && p.to == i && p.msg.Arm? ==>
      net.pages[j].Some? && p.msg == ArmMessage(net.pages[j].value)
  }

  ghost predicate Pairing(net: Net) {
    && |net.pages| == 2 && Settling(net, 0, 1) && Settling(net, 1, 0)
    && Current(net, 0, 1) && Current(net, 1, 0) && forall p :: p in net.flight && p.msg.Arm? ==> p.to < 2
  }

  /** A page is launched only when none of its earlier arms is still on its way. */
  ghost predicate Patient(net: Net, e: Event) {
    e.Launch? ==> forall p :: p in net.flight && p.msg.Arm? ==> p.to == e.page
  }

  lemma ReactMembers(net: Net, i: nat, step: Canary.Step, p: Packet)
    requires i < |net.pages|
    ensures p in React(net, i, step).flight <==>
              p in net.flight || (p.to < |net.pages| && p.to != i && p.msg in step.outbound)
  {
    BroadcastTo(|net.pages|, i, step.outbound, p);
  }

  lemma PairingAfterLaunch(net: Net, i: nat, j: nat, s: string)
    requires Inv(net) && Pairing(net) && Enabled(net, Launch(i, s)) && Patient(net, Launch(i, s))
    requires i + j == 1
    ensures Pairing(Apply(net, Launch(i, s)))
  {
    hide Inv, Broadcast;
    var page := Relaunched(net, i, s);
    var step := Canary.Step(page, [ArmMessage(page)]);
    var net' := Apply(net, Launch(i, s));
    forall p ensures p in net'.flight <==> p in net.flight || p == Packet(j, ArmMessage(page)) {
      ReactMembers(net, i, step, p);
    }
  }

  /** Reports, and what pages know of exits, do not matter. */
  predicate SamePair(a: Option<Page>, b: Option<Page>) {
    if a.None? then b.None?
    else b.Some? && a.value.session == b.value.session && a.value.partner == b.value.partner
         && a.value.supersedes == b.value.supersedes
  }

  lemma PairingStays(net: Net, net': Net)
    requires Pairing(net) && |net'.pages| == 2
    requires SamePair(net.pages[0], net'.pages[0]) && SamePair(net.pages[1], net'.pages[1])
    requires forall p: Packet | p.msg.Arm? :: p in net'.flight <==> p in net.flight
    ensures Pairing(net')
  {
  }

  lemma PairingAfterLog(net: Net, i: nat, j: nat, line: Line)
    requires Inv(net) && Pairing(net) && Enabled(net, Log(i, line)) && i + j == 1
    ensures Pairing(Apply(net, Log(i, line)))
  {
    hide Inv, Broadcast, HonestLine, Pairing;
    assert |net.pages| == 2 by {
      TwoPages(net);
    }
    var step := ReceiveCanaryLine(net.pages[i].value, line);
    var net' := Apply(net, Log(i, line));
    forall p: Packet | p.msg.Arm? ensures p in net'.flight <==> p in net.flight {
      ReactMembers(net, i, step, p);
    }
    PairingStays(net, net');
  }

  lemma TwoPages(net: Net)
    requires Pairing(net)
    ensures |net.pages| == 2
  {
  }

  lemma ReportReaction(page: Page, m: Msg)
    requires m.Exit?
    ensures var step := ReceiveMessage(page, m);
            step.page == page.(peerReport := step.page.peerReport) && step.outbound == []
  {
    hide AcceptsReport;
  }

  /** A page that is delivered a report keeps its pairing. */
  lemma PairingAfterReport(net: Net, i: nat, j: nat, m: Msg)
    requires Inv(net) && Pairing(net) && Enabled(net, Deliver(Packet(i, m))) && i + j == 1 && m.Exit?
    ensures Pairing(Apply(net, Deliver(Packet(i, m))))
  {
    hide Inv, Broadcast, ReceiveMessage, Pairing;
    assert |net.pages| == 2 by {
      TwoPages(net);
    }
    var p := Packet(i, m);
    if net.pages[i].Some? {
      ReportReaction(net.pages[i].value, m);
    }
    var rest := net.(flight := net.flight - multiset{p});
    var net' := Apply(net, Deliver(p));
    forall q: Packet | q.msg.Arm? ensures q in net'.flight <==> q in net.flight {
      assert q in rest.flight <==> q in net.flight;
      if net.pages[i].Some? {
        ReactMembers(rest, i, ReceiveMessage(net.pages[i].value, m), q);
      }
    }
    PairingStays(net, net');
  }

  lemma PairingAfterArm(net: Net, i: nat, j: nat, m: Msg)
    requires Inv(net) && Pairing(net) && Enabled(net, Deliver(Packet(i, m))) && i + j == 1 && m.Arm?
    ensures Pairing(Apply(net, Deliver(Packet(i, m))))
  {
    hide Broadcast, ReceiveMessage, Settling, Retired, NoNewer;
    var p := Packet(i, m);
    var rest := net.(flight := net.flight - multiset{p});
    var net' := Apply(net, Deliver(p));
    if net.pages[i].Some? {
      var a, b := net.pages[i].value, net.pages[j].value;
      assert GoodMsg(net, m) && GoodPage(net, i, a) && GoodPage(net, j, b);
      ArmReaction(a, m);
      var step := ReceiveMessage(a, m);
      forall q: Packet ensures q in net'.flight <==> q in rest.flight || (q.to == j && q.msg in step.outbound) {
        ReactMembers(rest, i, step, q);
      }
      Arrives(net, net', i, j, step);
    } else {
      Dropped(net, net', i, j, p);
    }
  }

  lemma Dropped(net: Net, net': Net, i: nat, j: nat, p: Packet)
    requires Pairing(net) && i + j == 1 && p.to == i && net.pages[i].None?
    requires net' == net.(flight := net.flight - multiset{p})
    ensures Pairing(net')
  {
  }

  /** The arm of page j arrives at page i. */
  lemma Arrives(net: Net, net': Net, i: nat, j: nat, step: Canary.Step)
    requires Pairing(net) && i + j == 1 && net.pages[i].Some? && net.pages[j].Some?
    requires net'.pages == net.pages[i := Some(step.page)]
    requires var a, b := net.pages[i].value, net.pages[j].value;
             && b.supersedes != Some(b.session)
             && step == (if Some(b.session) != a.partner && Open(a, b) then
                           Canary.Step(a.(partner := Some(b.session), myReport := None, peerReport := None),
                                       [ArmMessage(a)])
                         else Canary.Step(a, []))
    requires forall q: Packet :: q in net'.flight ==> q in net.flight || (q.to == j && q.msg in step.outbound)
    requires forall q: Packet :: q in net.flight && q.to == j ==> q in net'.flight
    requires forall q: Packet :: q.to == j && q.msg in step.outbound ==> q in net'.flight
    ensures Pairing(net')
  {
  }

  lemma PairingStep(net: Net, e: Event)
    requires Inv(net) && Pairing(net) && Enabled(net, e) && Patient(net, e) && !e.Lose?
    ensures Pairing(Apply(net, e))
  {
    hide Inv, Apply, Patient, HonestLine;
    match e {
      case Launch(i, s) => PairingAfterLaunch(net, i, 1 - i, s);
      case Log(i, line) => PairingAfterLog(net, i, 1 - i, line);
      case Deliver(p) =>
        if p.msg.Arm? {
          PairingAfterArm(net, p.to, 1 - p.to, p.msg);
        } else {
          PairingAfterReport(net, p.to, 1 - p.to, p.msg);
        }
    }
  }

  /** Nothing is lost, and every launch is patient. */
  ghost predicate Patiently(net: Net, es: seq<Event>)
    requires Legal(net, es)
    decreases |es|
  {
    es == [] ||
    var front, e := es[..|es| - 1], es[|es| - 1];
    Patiently(net, front) && !e.Lose? && Patient(After(net, front), e)
  }

  lemma {:induction false} PairingRun(net: Net, es: seq<Event>)
    requires Initial(net) && |net.pages| == 2 && Legal(net, es) && Patiently(net, es)
    ensures Pairing(After(net, es))
  {
    hide Inv, Apply, Enabled, Patient;
    if es == [] {
      NothingToPair(net);
    } else {
      var front := es[..|es| - 1];
      InitialInv(net);
      RunKeeps(net, front);
      PairingRun(net, front);
      PairingStep(After(net, front), es[|es| - 1]);
    }
  }

  lemma NothingToPair(net: Net)
    requires Initial(net) && |net.pages| == 2
    ensures Pairing(net)
  {
  }

  /** Two pages find each other: however often they are launched, if nothing is lost and no page is
      launched again before its arms have arrived, then once no arm is on its way they are partners. */
  lemma TwoPagesPair(net: Net, es: seq<Event>)
    requires Initial(net) && |net.pages| == 2 && Legal(net, es) && Patiently(net, es)
    requires var last := After(net, es);
             && |last.pages| == 2 && last.pages[0].Some? && last.pages[1].Some?
             && forall p :: p in last.flight ==> !p.msg.Arm?
    ensures Mutual(After(net, es), 0, 1)
  {
    hide Inv, Apply, Enabled, Patient, Patiently, Legal;
    PairingRun(net, es);
    var last := After(net, es);
    assert Packet(0, ArmMessage(last.pages[1].value)) !in last.flight;
    assert Packet(1, ArmMessage(last.pages[0].value)) !in last.flight;
  }

  /** No page is launched twice, and nothing is lost. */
  ghost predicate LaunchedOnce(es: seq<Event>) {
    && (forall m, n :: 0 <= m < n < |es| && es[m].Launch? && es[n].Launch? ==> es[m].page != es[n].page)
    && forall m :: 0 <= m < |es| ==> !es[m].Lose?
  }

  lemma {:induction false} NotYet(net: Net, es: seq<Event>, i: nat)
    requires Initial(net) && Legal(net, es) && i < |net.pages|
    requires forall m :: 0 <= m < |es| && es[m].Launch? ==> es[m].page != i
    ensures |After(net, es).pages| == |net.pages| && After(net, es).pages[i].None?
  {
    hide Apply, Enabled;
    if es != [] {
      var front, e := es[..|es| - 1], es[|es| - 1];
      NotYet(net, front, i);
      StaysOff(After(net, front), e, i);
    }
  }

  lemma StaysOff(net: Net, e: Event, i: nat)
    requires Enabled(net, e) && i < |net.pages| && !(e.Launch? && e.page == i) && net.pages[i].None?
    ensures |Apply(net, e).pages| == |net.pages| && Apply(net, e).pages[i].None?
  {
    hide Broadcast, HonestLine, ReceiveMessage, ReceiveCanaryLine;
  }

  lemma LaunchFits(net: Net, e: Event)
    requires Enabled(net, e)
    ensures e.Launch? ==> e.page < |net.pages|
  {
  }

  /** A page that is launched only once is patient. */
  lemma {:induction false} OnceIsPatient(net: Net, es: seq<Event>)
    requires Initial(net) && |net.pages| == 2 && Legal(net, es) && LaunchedOnce(es)
    ensures Patiently(net, es)
  {
    hide Inv, Apply, Enabled;
    if es != [] {
      var front, e := es[..|es| - 1], es[|es| - 1];
      assert forall m :: 0 <= m < |front| ==> front[m] == es[m];
      OnceIsPatient(net, front);
      PairingRun(net, front);
      var before := After(net, front);
      LaunchFits(before, e);
      if e.Launch? {
        NotYet(net, front, e.page);
      }
    }
  }

  /** With each page launched once and nothing lost, an empty flight means that both are partners. */
  lemma OnceIsEnough(net: Net, es: seq<Event>)
    requires Initial(net) && |net.pages| == 2 && Legal(net, es) && LaunchedOnce(es)
    requires var last := After(net, es);
             |last.pages| == 2 && last.pages[0].Some? && last.pages[1].Some? && last.flight == multiset{}
    ensures Mutual(After(net, es), 0, 1)
  {
    hide Legal, LaunchedOnce, Patiently, Apply;
    OnceIsPatient(net, es);
    TwoPagesPair(net, es);
  }

  // ---------- and how two pages can miss each other ----------

  lemma LegalSnoc(net: Net, es: seq<Event>, e: Event)
    requires Legal(net, es) && Enabled(After(net, es), e)
    ensures Legal(net, es + [e]) && After(net, es + [e]) == Apply(After(net, es), e)
  {
    hide Apply, Enabled;
    assert (es + [e])[..|es|] == es;
  }

  lemma BroadcastOne(i: nat, j: nat, m: Msg, n: nat)
    requires i + j == 1 && n == 2
    ensures Broadcast(n, i, [m]) == multiset{Packet(j, m)} && Broadcast(n, i, []) == multiset{}
  {
    assert Copies(j, [m]) == [Packet(j, m)] && Copies(j, []) == [];
    assert Broadcast(0, i, [m]) == Broadcast(0, i, []) == multiset{};
    assert Broadcast(1, i, [m]) == if i == 0 then multiset{} else multiset{Packet(j, m)};
    assert Broadcast(1, i, []) == multiset{};
  }

  /** Two pages and the messages between them, whatever else is recorded. */
  ghost predicate Stands(net: Net, a: Option<Page>, b: Option<Page>, flight: multiset<Packet>, born: set<string>) {
    net.pages == [a, b] && net.flight == flight && net.birth.Keys == born
  }

  lemma Launches(net: Net, i: nat, j: nat, s: string, a: Option<Page>, b: Option<Page>,
                 flight: multiset<Packet>, born: set<string>)
    requires Stands(net, a, b, flight, born) && i + j == 1 && IsSessionId(s) && s !in born
    ensures var was := if i == 0 then a else b;
            var page := Page(s, if was.Some? then Some(was.value.session) else None, None, None, None);
            && Enabled(net, Launch(i, s))
            && Stands(Apply(net, Launch(i, s)), if i == 0 then Some(page) else a, if i == 0 then b else Some(page),
                      flight + multiset{Packet(j, ArmMessage(page))}, born + {s})
  {
    hide Broadcast;
    BroadcastOne(i, j, ArmMessage(Relaunched(net, i, s)), |net.pages|);
  }

  lemma Arrived(net: Net, i: nat, j: nat, m: Msg, a: Option<Page>, b: Option<Page>,
                 flight: multiset<Packet>, born: set<string>)
    requires Stands(net, a, b, flight, born) && i + j == 1 && Packet(i, m) in flight
    requires m.Arm? && if i == 0 then a.Some? else b.Some?
    ensures var step := ReceiveMessage(if i == 0 then a.value else b.value, m);
            var more := if step.outbound == [] then multiset{} else multiset{Packet(j, step.outbound[0])};
            && Enabled(net, Deliver(Packet(i, m)))
            && Stands(Apply(net, Deliver(Packet(i, m))), if i == 0 then Some(step.page) else a,
                      if i == 0 then b else Some(step.page), flight - multiset{Packet(i, m)} + more, born)
  {
    hide Broadcast, AcceptsReport, ClassifyArm;
    var step := ReceiveMessage(net.pages[i].value, m);
    BroadcastOne(i, j, ArmMessage(step.page), |net.pages|);
  }

  /** The same at the end of a run in which nothing was lost. */
  ghost predicate Reached(net: Net, es: seq<Event>, a: Option<Page>, b: Option<Page>, flight: multiset<Packet>,
                          born: set<string>)
    requires Legal(net, es)
  {
    (forall m :: 0 <= m < |es| ==> !es[m].Lose?) && Stands(After(net, es), a, b, flight, born)
  }

  lemma Launching(net: Net, es: seq<Event>, i: nat, s: string, a: Option<Page>, b: Option<Page>, page: Page,
                  f: multiset<Packet>, g: multiset<Packet>, born: set<string>) returns (es': seq<Event>)
    requires Legal(net, es) && Reached(net, es, a, b, f, born) && i < 2 && IsSessionId(s) && s !in born
    requires var was := if i == 0 then a else b;
             page == Page(s, if was.Some? then Some(was.value.session) else None, None, None, None)
    requires g == f + multiset{Packet(1 - i, ArmMessage(page))}
    ensures Legal(net, es')
    ensures Reached(net, es', if i == 0 then Some(page) else a, if i == 0 then b else Some(page), g, born + {s})
  {
    hide Apply, Enabled, Stands, Legal;
    es' := es + [Launch(i, s)];
    Launches(After(net, es), i, 1 - i, s, a, b, f, born);
    LegalSnoc(net, es, Launch(i, s));
  }

  /** Page i takes up the arm m and answers it. */
  lemma Taking(net: Net, es: seq<Event>, i: nat, m: Msg, a: Page, b: Page, next: Page,
               f: multiset<Packet>, g: multiset<Packet>, born: set<string>) returns (es': seq<Event>)
    requires Legal(net, es) && Reached(net, es, Some(a), Some(b), f, born) && i < 2 && Packet(i, m) in f
    requires var page := if i == 0 then a else b;
             && m.Arm? && IsValidArm(m) && m.session != page.session && Some(m.session) != page.partner
             && (page.partner.None? || m.supersedes == page.partner)
             && next == Page(page.session, page.supersedes, Some(m.session), None, None)
             && g == f - multiset{Packet(i, m)} + multiset{Packet(1 - i, ArmMessage(page))}
    ensures Legal(net, es')
    ensures Reached(net, es', Some(if i == 0 then next else a), Some(if i == 0 then b else next), g, born)
  {
    hide Apply, Enabled, Stands, Legal, ReceiveMessage, IsValidArm;
    es' := es + [Deliver(Packet(i, m))];
    ArmReaction(if i == 0 then a else b, m);
    Arrived(After(net, es), i, 1 - i, m, Some(a), Some(b), f, born);
    LegalSnoc(net, es, Deliver(Packet(i, m)));
  }

  /** Page i has that partner already, or another one that the arm does not supersede. */
  lemma Ignoring(net: Net, es: seq<Event>, i: nat, m: Msg, a: Page, b: Page,
                 f: multiset<Packet>, g: multiset<Packet>, born: set<string>) returns (es': seq<Event>)
    requires Legal(net, es) && Reached(net, es, Some(a), Some(b), f, born) && i < 2 && Packet(i, m) in f
    requires var page := if i == 0 then a else b;
             && m.Arm? && page.partner.Some?
             && (page.partner == Some(m.session) || m.supersedes != page.partner)
             && g == f - multiset{Packet(i, m)}
    ensures Legal(net, es') && Reached(net, es', Some(a), Some(b), g, born)
  {
    hide Apply, Enabled, Stands, Legal, ReceiveMessage, IsValidArm;
    es' := es + [Deliver(Packet(i, m))];
    ArmReaction(if i == 0 then a else b, m);
    Arrived(After(net, es), i, 1 - i, m, Some(a), Some(b), f, born);
    LegalSnoc(net, es, Deliver(Packet(i, m)));
    assert g == g + multiset{};
  }

  /** Nothing is lost, and still the pages do not find each other, when a page is launched three times
      while its arms are on their way: page 0 takes up the first launch, ignores the arm of the third,
      which replaces a session it does not know, and follows the arm of the second. */
  lemma ImpatienceStrands(net: Net, s: string, b1: string, b2: string, b3: string) returns (es: seq<Event>)
    requires Initial(net) && |net.pages| == 2 && |{s, b1, b2, b3}| == 4
    requires IsSessionId(s) && IsSessionId(b1) && IsSessionId(b2) && IsSessionId(b3)
    ensures Legal(net, es) && (forall m :: 0 <= m < |es| ==> !es[m].Lose?)
    ensures var last := After(net, es);
            && last.flight == multiset{} && |last.pages| == 2 && last.pages[0].Some? && last.pages[1].Some?
            && last.pages[1].value.session == b3 && last.pages[0].value.partner == Some(b2)
            && !Mutual(last, 0, 1)
  {
    hide Legal, Initial, Mutual, Reached, IsSessionId;
    Distinct(s, b1, b2, b3);
    var mine, first := Packet(1, Arm(s, None)), Packet(0, Arm(b1, None));
    var second, third := Packet(0, Arm(b2, Some(b1))), Packet(0, Arm(b3, Some(b2)));
    var a, p1 := Page(s, None, None, None, None), Page(b1, None, None, None, None);
    var p2, c := Page(b2, Some(b1), None, None, None), Page(b3, Some(b2), None, None, None);
    Nowhere(net);
    es := Launching(net, [], 0, s, None, None, a, multiset{}, multiset{mine}, {});
    es := Launching(net, es, 1, b1, Some(a), None, p1, multiset{mine}, multiset{mine, first}, {} + {s});
    es := Launching(net, es, 1, b2, Some(a), Some(p1), p2, multiset{mine, first}, multiset{mine, first, second},
                    {} + {s} + {b1});
    es := Launching(net, es, 1, b3, Some(a), Some(p2), c, multiset{mine, first, second},
                    multiset{mine, first, second, third}, {} + {s} + {b1} + {b2});
    es := Arriving(net, es, s, b1, b2, b3, {} + {s} + {b1} + {b2} + {b3});
  }

  lemma Distinct(a: string, b: string, c: string, d: string)
    requires |{a, b, c, d}| == 4
    ensures a != b && a != c && a != d && b != c && b != d && c != d
  {
    assert a == b ==> {a, b, c, d} == {b, c, d};
    assert a == c ==> {a, b, c, d} == {b, c, d};
    assert a == d ==> {a, b, c, d} == {b, c, d};
    assert b == c ==> {a, b, c, d} == {a, c, d};
    assert b == d ==> {a, b, c, d} == {a, c, d};
    assert c == d ==> {a, b, c, d} == {a, b, d};
  }

  /** The deliveries of that run. */
  lemma Arriving(net: Net, es0: seq<Event>, s: string, b1: string, b2: string, b3: string, born: set<string>)
    returns (es: seq<Event>)
    requires IsSessionId(s) && IsSessionId(b1) && IsSessionId(b2) && IsSessionId(b3)
    requires s != b1 && s != b2 && s != b3 && b1 != b2 && b1 != b3 && b2 != b3
    requires Legal(net, es0)
    requires Reached(net, es0, Some(Page(s, None, None, None, None)), Some(Page(b3, Some(b2), None, None, None)),
                     multiset{Packet(1, Arm(s, None)), Packet(0, Arm(b1, None)), Packet(0, Arm(b2, Some(b1))),
                              Packet(0, Arm(b3, Some(b2)))}, born)
    ensures Legal(net, es) && (forall m :: 0 <= m < |es| ==> !es[m].Lose?)
    ensures var last := After(net, es);
            && last.flight == multiset{} && |last.pages| == 2 && last.pages[0].Some? && last.pages[1].Some?
            && last.pages[1].value.session == b3 && last.pages[0].value.partner == Some(b2)
            && !Mutual(last, 0, 1)
  {
    hide Legal, Mutual, Reached, IsSessionId;
    var mine, first := Packet(1, Arm(s, None)), Packet(0, Arm(b1, None));
    var second, third := Packet(0, Arm(b2, Some(b1))), Packet(0, Arm(b3, Some(b2)));
    var a, a1, a2 := Page(s, None, None, None, None), Page(s, None, Some(b1), None, None),
                     Page(s, None, Some(b2), None, None);
    var c, c1 := Page(b3, Some(b2), None, None, None), Page(b3, Some(b2), Some(s), None, None);
    es := Taking(net, es0, 0, first.msg, a, c, a1, multiset{mine, first, second, third},
                 multiset{mine, mine, second, third}, born);
    es := Ignoring(net, es, 0, third.msg, a1, c, multiset{mine, mine, second, third},
                   multiset{mine, mine, second}, born);
    es := Taking(net, es, 1, mine.msg, a1, c, c1, multiset{mine, mine, second}, multiset{mine, second, third}, born);
    es := Ignoring(net, es, 1, mine.msg, a1, c1, multiset{mine, second, third}, multiset{second, third}, born);
    es := Ignoring(net, es, 0, third.msg, a1, c1, multiset{second, third}, multiset{second}, born);
    es := Taking(net, es, 0, second.msg, a1, c1, a2, multiset{second}, multiset{mine}, born);
    es := Ignoring(net, es, 1, mine.msg, a2, c1, multiset{mine}, multiset{}, born);
    Stranded(net, es, a2, c1, born);
  }

  lemma Nowhere(net: Net)
    requires Initial(net) && |net.pages| == 2
    ensures Legal(net, []) && Reached(net, [], None, None, multiset{}, {})
  {
    assert net.pages == [None, None];
  }

  lemma Stranded(net: Net, es: seq<Event>, a: Page, b: Page, born: set<string>)
    requires Legal(net, es) && Reached(net, es, Some(a), Some(b), multiset{}, born)
    requires a.partner != Some(b.session)
    ensures forall m :: 0 <= m < |es| ==> !es[m].Lose?
    ensures var last := After(net, es);
            last.pages == [Some(a), Some(b)] && last.flight == multiset{} && !Mutual(last, 0, 1)
  {
  }
}
