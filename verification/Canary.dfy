/** The canary verdict protocol: one page's reactions, as pure steps. */
module Canary {
  import opened Wrappers

  datatype Verdict = MATCH | MISMATCH | PENDING

  datatype Verdicts = Verdicts(input: Verdict, state: Verdict, aggregate: Verdict)

  /** The two halves of an exit, as the engine's canary lines give them. */
  datatype Input = Input(bytes: nat, sha256: string)

  datatype State = State(episode: nat, level: nat, gametic: nat, bytes: nat, sha256: string)

  datatype Line = InputLine(input: Input) | StateLine(state: State)

  datatype Report = Report(input: Option<Input>, state: Option<State>)

  /** What travels on the channel. */
  datatype Msg =
    | Arm(session: string, supersedes: Option<string>)
    | Exit(session: string, partner: string, input: Input, state: State)

  datatype Page = Page(session: string, supersedes: Option<string>, partner: Option<string>,
                       myReport: Option<Report>, peerReport: Option<Msg>)

  const MAX_SAFE_INTEGER: nat := 9007199254740991

  predicate IsSessionId(v: string) {
    0 < |v| <= 128
  }

  predicate IsDigest(v: string) {
    |v| == 64 && forall k :: 0 <= k < |v| ==> '0' <= v[k] <= '9' || 'a' <= v[k] <= 'f'
  }

  predicate IsCount(v: nat) {
    v <= MAX_SAFE_INTEGER
  }

  predicate IsComplete(r: Option<Report>) {
    r.Some? && r.value.input.Some? && r.value.state.Some?
  }

  predicate Identified(s: State) {
    IsCount(s.episode) && IsCount(s.level) && IsCount(s.gametic)
  }

  predicate SameExit(a: State, b: State) {
    Identified(a) && Identified(b) && a.episode == b.episode && a.level == b.level && a.gametic == b.gametic
  }

  predicate IsValidReport(m: Msg) {
    && m.Exit? && IsSessionId(m.session) && IsSessionId(m.partner)
    && IsCount(m.input.bytes) && IsDigest(m.input.sha256)
    && IsCount(m.state.bytes) && IsDigest(m.state.sha256) && Identified(m.state)
  }

  predicate IsValidArm(m: Msg) {
    m.Arm? && IsSessionId(m.session) && (m.supersedes.Some? ==> IsSessionId(m.supersedes.value))
  }

  /** A report counts only from the current partner, addressed to the current session. */
  predicate AcceptsReport(m: Msg, page: Page) {
    && IsValidReport(m)
    && IsSessionId(page.session) && page.partner.Some? && IsSessionId(page.partner.value)
    && m.session != page.session
    && m.session == page.partner.value
    && m.partner == page.session
  }

  datatype ArmAction = IGNORE_INVALID | IGNORE_SELF | IGNORE_KNOWN | IGNORE_UNRELATED | ADOPT | REPLACE

  function ClassifyArm(m: Msg, page: Page): ArmAction {
    if !IsValidArm(m) then IGNORE_INVALID
    else if m.session == page.session then IGNORE_SELF
    else if Some(m.session) == page.partner then IGNORE_KNOWN
    else if page.partner.None? then ADOPT
    else if m.supersedes.Some? && m.supersedes == page.partner then REPLACE
    else IGNORE_UNRELATED
  }

  predicate ArmAdopts(a: ArmAction) {
    a == ADOPT || a == REPLACE
  }

  function CompareInput(mine: Input, theirs: Input): Verdict {
    if mine.sha256 == theirs.sha256 && mine.bytes == theirs.bytes then MATCH else MISMATCH
  }

  function CompareState(mine: State, theirs: State): Verdict {
    if mine.sha256 == theirs.sha256 && mine.bytes == theirs.bytes then MATCH else MISMATCH
  }

  function CompareReports(mine: Option<Report>, theirs: Option<Msg>): Verdicts
    requires theirs.Some? ==> theirs.value.Exit?
  {
    if !IsComplete(mine) || theirs.None? || !SameExit(mine.value.state.value, theirs.value.state) then
      Verdicts(PENDING, PENDING, PENDING)
    else
      var input := CompareInput(mine.value.input.value, theirs.value.input);
      var state := CompareState(mine.value.state.value, theirs.value.state);
      Verdicts(input, state, if input == MISMATCH || state == MISMATCH then MISMATCH
                             else if input == MATCH && state == MATCH then MATCH
                             else PENDING)
  }

  /** A complete report is closed: the next input line starts a fresh one. */
  function AddCanaryLine(report: Option<Report>, line: Line): Report {
    if IsComplete(report) then
      match line
      case InputLine(i) => Report(Some(i), None)
      case StateLine(_) => report.value
    else
      var r := if report.Some? then report.value else Report(None, None);
      match line
      case InputLine(i) => r.(input := Some(i))
      case StateLine(s) => r.(state := Some(s))
  }

  datatype Step = Step(page: Page, outbound: seq<Msg>)

  function ArmMessage(page: Page): Msg {
    Arm(page.session, page.supersedes)
  }

  function ReceiveMessage(page: Page, m: Msg): Step {
    var action := ClassifyArm(m, page);
    if ArmAdopts(action) then
      var next := page.(partner := Some(m.session), myReport := None, peerReport := None);
      Step(next, [ArmMessage(next)])
    else if action != IGNORE_INVALID then Step(page, [])
    else if !AcceptsReport(m, page) then Step(page, [])
    else if page.peerReport.Some? && page.peerReport.value.Exit?
         && m.state.gametic < page.peerReport.value.state.gametic then Step(page, [])
    else Step(page.(peerReport := Some(m)), [])
  }

  function PublishOutbound(page: Page): seq<Msg> {
    if page.partner.None? || !IsComplete(page.myReport) then []
    else
      var r := page.myReport.value;
      [Exit(page.session, page.partner.value, r.input.value, r.state.value)]
  }

  function ReceiveCanaryLine(page: Page, line: Line): Step {
    var next := page.(myReport := Some(AddCanaryLine(page.myReport, line)));
    if !IsComplete(next.myReport) then Step(next, [])
    else Step(next, PublishOutbound(next))
  }

  /** What a held peer report may be. */
  predicate HeldIsPaired(page: Page) {
    page.peerReport.Some? ==>
      var r := page.peerReport.value;
      && IsValidReport(r) && Some(r.session) == page.partner && r.partner == page.session
      && r.session != page.session
  }

  /** Both reactions keep the held report tied to the current pairing. */
  lemma PairingKept(page: Page, m: Msg, line: Line)
    requires HeldIsPaired(page)
    ensures HeldIsPaired(ReceiveMessage(page, m).page)
    ensures HeldIsPaired(ReceiveCanaryLine(page, line).page)
  {
  }

  /** An unpartnered page takes the first valid arm of another session, and a page whose partner the arm
      supersedes follows it; the reports of the old pairing go, and the page answers with its own arm.
      No other arm does anything. */
  lemma ArmReaction(page: Page, m: Msg)
    requires m.Arm?
    ensures var taken := IsValidArm(m) && m.session != page.session && Some(m.session) != page.partner
                         && (page.partner.None? || m.supersedes == page.partner);
            if taken then
              ReceiveMessage(page, m) == Step(Page(page.session, page.supersedes, Some(m.session), None, None),
                                              [Arm(page.session, page.supersedes)])
            else ReceiveMessage(page, m) == Step(page, [])
  {
  }

  /** MATCH means the same exit, with both digests and both lengths equal. */
  lemma MatchMeans(mine: Option<Report>, theirs: Option<Msg>)
    requires theirs.Some? ==> theirs.value.Exit?
    ensures CompareReports(mine, theirs).aggregate == MATCH <==>
      && IsComplete(mine) && theirs.Some? && Identified(theirs.value.state)
      && mine.value.input.value == theirs.value.input && mine.value.state.value == theirs.value.state
  {
  }
}
