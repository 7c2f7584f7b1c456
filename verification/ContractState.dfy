/** The contract as a state machine: its stored state, one call per public method, and what a
    call does. An error rolls the whole call back. */
module ContractState {
  import opened Types
  import opened Split
  import opened Ledger
  import opened Recipients
  import opened Incentives
  import opened AdminControl
  import G = Governance

  const MAX_BATCH_TOKENS: int := 50
  const MAX_APPROVED_TOKENS: int := 25

  datatype Registry = Registry(
    collaborators: Option<seq<Address>>,
    shareMap: Option<map<Address, u32>>,
    defaults: seq<Recipient>,
    joined: map<Address, u64>,
    activity: map<Address, u32>,
    incentives: bool)

  datatype Pauses = Pauses(global: bool, primary: bool, secondary: bool, emergency: bool, anomaly: Option<int>)

  datatype Treasury = Treasury(
    ledger: Balances,
    pool: Balance,
    poolToken: Option<Address>,
    approved: seq<Address>,
    count: u64,
    lastDistribution: Option<u64>,
    lastSecondary: Option<u64>)

  datatype DisputeStatus = Open | Resolved | ClawedBack

  datatype Dispute = Dispute(transactionId: u64, amount: int, status: DisputeStatus,
                             openedBy: Address, openedAt: u64, resolvedAt: u64)

  datatype Disputes = Disputes(items: map<u64, Dispute>, count: u64)

  datatype State = State(
    registry: Registry,
    admins: Admins,
    pauses: Pauses,
    treasury: Treasury,
    gov: G.Gov,
    disputes: Disputes)

  datatype Scope = Global | Primary | Secondary

  /** How the lists of a reveal compare with the stored commitment. */
  datatype Opening = NoCommitment | TooEarly | Mismatch | Opens

  datatype Call =
    | Initialize(collaborators: seq<Address>, shares: seq<u32>)
    | RevealInitialize(collaborators: seq<Address>, shares: seq<u32>, opening: Opening)
    | SetRecipients(recipients: seq<Recipient>)
    | SetDefaultRecipients(recipients: seq<Recipient>)
    | UpdateShare(collaborator: Address, newShare: u32)
    | SetIncentivesEnabled(enabled: bool)
    | DistributeWithOverride(token: Address, override: seq<Recipient>)
    | DistributeResilient(token: Address, override: seq<Recipient>)
    | BatchDistribute(tokens: seq<Address>)
    | DistributeWithIncentives(token: Address)
    | RecordSecondaryRoyalty(token: Address, from: Address, amount: int)
    | DistributeSecondary
    | Withdraw(token: Address, amount: int)
    | SetApprovedTokens(tokens: seq<Address>)
    | SetPaused(scope: Scope, on: bool)
    | SetAnomalyThreshold(maxAmount: int)
    | ClearAnomalyThreshold
    | TriggerEmergencyPause
    | ClearEmergencyPause
    | SetAdmins(list: seq<Address>, threshold: u32)
    | AdminTransfer(newAdmin: Address)
    | ProposeAdminTransfer(newAdmin: Address)
    | AcceptAdmin
    | InitiateAdminRotation(newAdmin: Address)
    | CancelAdminRotation
    | FinalizeAdminRotation
    | SetAdminRotationTimelock(seconds: u64)
    | SetRoyaltyRate(newRate: u32)
    | ProposeRateChange(proposer: Address, newRate: u32, duration: u64)
    | Vote(voter: Address, id: u64, support: bool)
    | ExecuteProposal(id: u64)
    | RecordDispute(transactionId: u64, disputed: int)
    | ResolveDispute(id: u64)
    | Clawback(id: u64, token: Address, sources: seq<Address>, amounts: seq<int>)
      /** A transfer between other holders, or a deposit into the contract, made outside it. */
    | OutsideTransfer(token: Address, from: Address, to: Address, amount: int)

  /** The host's side of an invocation: the ledger time, who signed, and which receivers' transfers fail. */
  datatype Env = Env(now: u64, signers: set<Address>, refusing: set<Address>)

  datatype Step = Step(env: Env, call: Call)

  // ----- Reading the state -----

  function BaseRecipients(r: Registry): seq<Recipient> {
    Stored(if r.collaborators.Some? then r.collaborators.value else [],
           if r.shareMap.Some? then r.shareMap.value else map[])
  }

  /** The list a primary distribution pays: the override, else the defaults, else the collaborators. */
  function Effective(r: Registry, override: seq<Recipient>): Option<seq<Recipient>> {
    if override != [] then Some(override)
    else if r.defaults != [] then Some(r.defaults)
    else if r.collaborators.None? || r.shareMap.None? then None
    else Some(BaseRecipients(r))
  }

  function Approved(t: Treasury, token: Address): bool {
    t.approved == [] || token in t.approved
  }

  function Trips(p: Pauses, amount: int): bool {
    p.anomaly.Some? && amount > p.anomaly.value
  }

  function Blocked(p: Pauses, secondary: bool): bool {
    p.emergency || p.global || if secondary then p.secondary else p.primary
  }

  function BonusList(r: Registry, now: u64): (bs: seq<u32>)
    ensures |bs| == |BaseRecipients(r)| && forall i :: 0 <= i < |bs| ==> bs[i] <= 150
  {
    Bonuses(BaseRecipients(r), r.joined, r.activity, now)
  }

  /** The list paid by `distribute_with_incentives`; the stored list is valid whenever it is non-empty. */
  ghost function IncentiveRecipients(r: Registry, now: u64): seq<Recipient> {
    var base := BaseRecipients(r);
    if r.incentives && ValidRecipients(base) then
      AdjustedTotal(base, BonusList(r, now));
      WithShares(base, AdjustedShares(base, BonusList(r, now)))
    else base
  }

  // ----- The collaborator registry -----

  function JoinedAt(joined: map<Address, u64>, who: seq<Address>, now: u64): map<Address, u64> {
    joined + map a | a in who && a !in joined :: now
  }

  lemma JoinedNone(joined: map<Address, u64>, now: u64)
    ensures JoinedAt(joined, [], now) == joined
  {
  }

  lemma JoinedSnoc(joined: map<Address, u64>, who: seq<Address>, i: nat, now: u64)
    requires i < |who|
    ensures var before := JoinedAt(joined, who[..i], now);
      JoinedAt(joined, who[..i + 1], now) == if who[i] in before then before else before[who[i] := now]
  {
    assert who[..i + 1] == who[..i] + [who[i]];
  }

  /** The first entry that stops `initialize`: a zero share, or a repeated address. */
  function InitDefect(collaborators: seq<Address>, shares: seq<u32>): Option<Error>
    requires |collaborators| == |shares|
  {
    if collaborators == [] then None
    else
      var k := |collaborators| - 1;
      var earlier := InitDefect(collaborators[..k], shares[..k]);
      if earlier.Some? then earlier
      else if shares[k] == 0 then Some(ZeroShare)
      else if collaborators[k] in collaborators[..k] then Some(DuplicateRecipient)
      else None
  }

  function Zip(collaborators: seq<Address>, shares: seq<u32>): (r: seq<Recipient>)
    requires |collaborators| == |shares|
    ensures |r| == |collaborators|
  {
    seq(|shares|, i requires 0 <= i < |shares| => Recipient(collaborators[i], shares[i]))
  }

  ghost function InitializeOp(s: State, now: u64, signers: set<Address>, cs: seq<Address>, shares: seq<u32>): Result<State> {
    if s.admins.admin.Some? then Err(AlreadyInitialized)
    else if cs == [] then Err(EmptyCollaborators)
    else if |cs| > MAX_RECIPIENTS then Err(TooManyRecipients)
    else if cs[0] !in signers then Err(HostPanic)
    else InitializeValidatedOp(s, now, cs, shares)
  }

  /** The second route to a first admin. The commitment is represented by the outcome of its checks. */
  ghost function RevealInitializeOp(s: State, now: u64, signers: set<Address>, cs: seq<Address>, shares: seq<u32>,
                                    opening: Opening): Result<State>
  {
    if s.admins.admin.Some? then Err(AlreadyInitialized)
    else match opening
      case NoCommitment => Err(NoInitializationCommitment)
      case TooEarly => Err(InitRevealTooEarly)
      case Mismatch => Err(InitCommitmentMismatch)
      case Opens =>
        if cs == [] then Err(EmptyCollaborators)
        else if cs[0] !in signers then Err(HostPanic)
        else InitializeValidatedOp(s, now, cs, shares)
  }

  /** What both routes share. */
  ghost function InitializeValidatedOp(s: State, now: u64, cs: seq<Address>, shares: seq<u32>): Result<State> {
    if cs == [] then Err(EmptyCollaborators)
    else if |cs| > MAX_RECIPIENTS then Err(TooManyRecipients)
    else if |cs| != |shares| then Err(LengthMismatch)
    else if Sum(shares) >= U32_LIMIT then Err(ArithmeticOverflow)
    else if Sum(shares) != 10_000 then Err(InvalidShareTotal)
    else if InitDefect(cs, shares).Some? then Err(InitDefect(cs, shares).value)
    else Ok(s.(
      registry := s.registry.(collaborators := Some(cs), shareMap := Some(ToMap(Zip(cs, shares))),
                              joined := JoinedAt(map[], cs, now)),
      admins := s.admins.(admin := Some(cs[0]))))
  }

  ghost function SetRecipientsOp(s: State, now: u64, signers: set<Address>, rs: seq<Recipient>): Result<State> {
    if !AdminSigned(s.admins, signers) then Err(HostPanic)
    else if Defect(rs).Some? then Err(Defect(rs).value)
    else Ok(s.(registry := s.registry.(
      collaborators := Some(Addresses(rs)), shareMap := Some(ToMap(rs)),
      joined := JoinedAt(s.registry.joined, Addresses(rs), now))))
  }

  ghost function SetDefaultsOp(s: State, signers: set<Address>, rs: seq<Recipient>): Result<State> {
    if !AdminSigned(s.admins, signers) then Err(HostPanic)
    else if exists i :: 0 <= i < |rs| && rs[i].share > 10_000 then Err(InvalidBasisPoints)
    else if Defect(rs).Some? then Err(Defect(rs).value)
    else Ok(s.(registry := s.registry.(defaults := rs)))
  }

  ghost function UpdateShareOp(s: State, signers: set<Address>, c: Address, newShare: u32): Result<State> {
    if !AdminSigned(s.admins, signers) || s.registry.shareMap.None? then Err(HostPanic)
    else
      var m := s.registry.shareMap.value;
      if c !in m then Err(CollaboratorNotFound)
      else if MapTotal(m) >= U32_LIMIT || MapTotal(m) - m[c] + newShare >= U32_LIMIT then Err(ArithmeticOverflow)
      else if MapTotal(m) - m[c] + newShare != 10_000 then Err(InvalidUpdatedShareTotal)
      else if newShare == 0 then Err(ZeroShare)
      else Ok(s.(registry := s.registry.(shareMap := Some(m[c := newShare]))))
  }

  function SetIncentivesOp(s: State, signers: set<Address>, on: bool): Result<State> {
    if !AdminSigned(s.admins, signers) then Err(HostPanic)
    else Ok(s.(registry := s.registry.(incentives := on)))
  }

  // ----- Payouts -----

  /** Split `amount` of `token` over the list and transfer every part. */
  ghost function PayOut(l: Balances, token: Address, amount: nat, rs: seq<Recipient>, refusing: set<Address>): Result<Balances>
    requires rs != []
  {
    if SplitOverflows(amount, rs) then Err(ArithmeticOverflow)
    else match PayAll(l, token, Payments(amount, rs), refusing)
      case None => Err(HostPanic)
      case Some(l') => Ok(l')
  }

  function Counted(t: Treasury, l: Balances, now: u64, n: nat): Treasury {
    t.(ledger := l, count := SaturatingAdd(t.count, n, U64_LIMIT), lastDistribution := Some(now))
  }

  /** Validation, split and payment of the contract's whole balance of one token. */
  ghost function PayBalance(t: Treasury, token: Address, rs: seq<Recipient>, now: u64, refusing: set<Address>): Result<Treasury> {
    var amount := Bal(t.ledger, token, SELF);
    if Defect(rs).Some? then Err(Defect(rs).value)
    else if amount < |rs| then Err(AmountTooSmall)
    else match PayOut(t.ledger, token, amount, rs, refusing)
      case Err(x) => Err(x)
      case Ok(l) => Ok(Counted(t, l, now, 1))
  }

  ghost function DistributeOp(s: State, e: Env, token: Address, override: seq<Recipient>): Result<State> {
    var amount := Bal(s.treasury.ledger, token, SELF);
    if !AdminSigned(s.admins, e.signers) then Err(HostPanic)
    else if s.pauses.emergency then Err(EmergencyContractPaused)
    else if Blocked(s.pauses, false) then Err(ContractPaused)
    else if !Approved(s.treasury, token) then Err(TokenNotApproved)
    else if amount == 0 then Err(Underfunded)
    else if Trips(s.pauses, amount) then Ok(s.(pauses := s.pauses.(emergency := true)))
    else if Effective(s.registry, override).None? then Err(HostPanic)
    else match PayBalance(s.treasury, token, Effective(s.registry, override).value, e.now, e.refusing)
      case Err(x) => Err(x)
      case Ok(t) => Ok(s.(treasury := t))
  }

  ghost function ResilientOp(s: State, e: Env, token: Address, override: seq<Recipient>): Result<State> {
    var amount := Bal(s.treasury.ledger, token, SELF);
    var rs := Effective(s.registry, override);
    if !AdminSigned(s.admins, e.signers) then Err(HostPanic)
    else if Blocked(s.pauses, false) then Err(ContractPaused)
    else if amount == 0 then Err(Underfunded)
    else if rs.None? then Err(HostPanic)
    else if Defect(rs.value).Some? then Err(Defect(rs.value).value)
    else if amount < |rs.value| then Err(AmountTooSmall)
    else if SplitOverflows(amount, rs.value) then Err(ArithmeticOverflow)
    else
      var a := TryPayAll(s.treasury.ledger, token, Payments(amount, rs.value), e.refusing);
      if |a.failed| < |rs.value| then Ok(s.(treasury := Counted(s.treasury, a.ledger, e.now, 1)))
      else Ok(s.(treasury := s.treasury.(ledger := a.ledger)))
  }

  ghost function IncentivesOp(s: State, e: Env, token: Address): Result<State> {
    if !AdminSigned(s.admins, e.signers) then Err(HostPanic)
    else if Blocked(s.pauses, false) then Err(ContractPaused)
    else if Bal(s.treasury.ledger, token, SELF) == 0 then Err(Underfunded)
    else match PayBalance(s.treasury, token, IncentiveRecipients(s.registry, e.now), e.now, e.refusing)
      case Err(x) => Err(x)
      case Ok(t) => Ok(s.(treasury := t))
  }

  /** A batch in progress: still paying, stopped by the anomaly check at index k, or failed. */
  datatype Batch = Paying(ledger: Balances) | Tripped(k: nat, ledger: Balances) | Failed(error: Error)

  ghost function BatchRun(l: Balances, p: Pauses, rs: seq<Recipient>, tokens: seq<Address>, refusing: set<Address>): Batch
    requires rs != []
  {
    if tokens == [] then Paying(l)
    else
      var k := |tokens| - 1;
      match BatchRun(l, p, rs, tokens[..k], refusing)
      case Tripped(j, l') => Tripped(j, l')
      case Failed(x) => Failed(x)
      case Paying(l') =>
        var amount := Bal(l', tokens[k], SELF);
        if Trips(p, amount) then Tripped(k, l')
        else if amount == 0 then Failed(NoBalance)
        else if amount < |rs| then Failed(AmountTooSmall)
        else match PayOut(l', tokens[k], amount, rs, refusing)
          case Err(x) => Failed(x)
          case Ok(l'') => Paying(l'')
  }

  ghost function BatchOp(s: State, e: Env, tokens: seq<Address>): Result<State> {
    var rs := Effective(s.registry, []);
    if !AdminSigned(s.admins, e.signers) then Err(HostPanic)
    else if |tokens| > MAX_BATCH_TOKENS then Err(TooManyBatchTokens)
    else if exists i :: 0 <= i < |tokens| && !Approved(s.treasury, tokens[i]) then Err(TokenNotApproved)
    else if s.pauses.emergency then Err(EmergencyContractPaused)
    else if s.pauses.global then Err(ContractPaused)
    else if rs.None? then Err(HostPanic)
    else if rs.value == [] then Err(EmptyRecipients)
    else if Sum(Shares(rs.value)) >= U32_LIMIT then Err(ArithmeticOverflow)
    else if Sum(Shares(rs.value)) != 10_000 then Err(InvalidShareTotal)
    else match BatchRun(s.treasury.ledger, s.pauses, rs.value, tokens, e.refusing)
      case Failed(x) => Err(x)
      case Tripped(_, l) => Ok(s.(pauses := s.pauses.(emergency := true), treasury := s.treasury.(ledger := l)))
      case Paying(l) => Ok(s.(treasury := Counted(s.treasury, l, e.now, |tokens|)))
  }

  function RecordOp(s: State, e: Env, token: Address, from: Address, amount: int): Result<State> {
    if from !in e.signers then Err(HostPanic)
    else if amount <= 0 then Err(RoyaltyAmountNotPositive)
    else if !Approved(s.treasury, token) then Err(TokenNotApproved)
    else
      var l := Transfer(s.treasury.ledger, token, from, SELF, amount, e.refusing);
      if l.None? then Err(HostPanic)
      else if s.treasury.pool + amount > I128_MAX then Err(ArithmeticOverflow)
      else
        var t := s.treasury.(ledger := l.value, pool := s.treasury.pool + amount, poolToken := Some(token));
        var known := s.registry.shareMap.Some? && from in s.registry.shareMap.value;
        var seen := if from in s.registry.activity then s.registry.activity[from] else 0;
        Ok(s.(treasury := t, registry := if known
          then s.registry.(activity := s.registry.activity[from := SaturatingAdd(seen, 1, U32_LIMIT)])
          else s.registry))
  }

  ghost function SecondaryOp(s: State, e: Env): Result<State> {
    var pool := s.treasury.pool;
    if !AdminSigned(s.admins, e.signers) then Err(HostPanic)
    else if s.pauses.emergency then Err(EmergencyContractPaused)
    else if Blocked(s.pauses, true) then Err(ContractPaused)
    else if s.registry.shareMap.None? then Err(HostPanic)
    else if MapTotal(s.registry.shareMap.value) >= U32_LIMIT then Err(ArithmeticOverflow)
    else if MapTotal(s.registry.shareMap.value) != 10_000 then Err(InvalidShareTotal)
    else if pool == 0 then Err(NoSecondaryRoyalties)
    else if s.treasury.poolToken.None? then Err(NoSecondaryToken)
    else if Trips(s.pauses, pool) then Ok(s.(pauses := s.pauses.(emergency := true)))
    else if pool > Bal(s.treasury.ledger, s.treasury.poolToken.value, SELF) then Err(PoolExceedsBalance)
    else if BaseRecipients(s.registry) == [] then Err(HostPanic)
    else match PayOut(s.treasury.ledger, s.treasury.poolToken.value, pool, BaseRecipients(s.registry), e.refusing)
      case Err(x) => Err(x)
      case Ok(l) => Ok(s.(treasury := s.treasury.(ledger := l, pool := 0, lastSecondary := Some(e.now))))
  }

  function WithdrawOp(s: State, e: Env, token: Address, amount: int): Result<State> {
    if s.admins.admin.None? then Err(NotInitialized)
    else if !AdminSigned(s.admins, e.signers) then Err(HostPanic)
    else if amount <= 0 then Err(AmountNotPositive)
    else if amount > Bal(s.treasury.ledger, token, SELF) then Err(InsufficientBalance)
    else match Transfer(s.treasury.ledger, token, SELF, s.admins.admin.value, amount, e.refusing)
      case None => Err(HostPanic)
      case Some(l) => Ok(s.(treasury := s.treasury.(ledger := l)))
  }

  ghost function SetApprovedOp(s: State, signers: set<Address>, tokens: seq<Address>): Result<State> {
    if !AdminSigned(s.admins, signers) then Err(HostPanic)
    else if |tokens| > MAX_APPROVED_TOKENS then Err(InputTooLarge)
    else if !Distinct(tokens) then Err(DuplicateRecipient)
    else Ok(s.(treasury := s.treasury.(approved := tokens)))
  }

  // ----- Pauses -----

  function SetPausedOp(s: State, signers: set<Address>, scope: Scope, on: bool): Result<State> {
    if !AdminSigned(s.admins, signers) then Err(HostPanic)
    else if s.admins.admin.None? then Err(NotInitialized)
    else Ok(s.(pauses := match scope
      case Global => s.pauses.(global := on)
      case Primary => s.pauses.(primary := on)
      case Secondary => s.pauses.(secondary := on)))
  }

  function SetAnomalyOp(s: State, signers: set<Address>, limit: Option<int>): Result<State> {
    if !AdminSigned(s.admins, signers) || (limit.Some? && limit.value <= 0) then Err(HostPanic)
    else Ok(s.(pauses := s.pauses.(anomaly := limit)))
  }

  function EmergencyOp(s: State, signers: set<Address>, on: bool): Result<State> {
    if on && !AdminSigned(s.admins, signers) then Err(HostPanic)
    else if !on && !AllAdminsSigned(s.admins, signers) then Err(HostPanic)
    else Ok(s.(pauses := s.pauses.(emergency := on)))
  }

  // ----- Disputes -----

  function CloseDispute(d: Disputes, now: u64, id: u64, status: DisputeStatus): Result<Disputes> {
    if id !in d.items then Err(DisputeNotFound)
    else if d.items[id].status != Open then Err(DisputeAlreadyResolved)
    else Ok(d.(items := d.items[id := d.items[id].(status := status, resolvedAt := now)]))
  }

  function RecordDisputeOp(s: State, now: u64, signers: set<Address>, transactionId: u64, amount: int): Result<State> {
    if !AdminSigned(s.admins, signers) then Err(HostPanic)
    else if amount <= 0 then Err(AmountNotPositive)
    else if s.admins.admin.None? then Err(NotInitialized)
    else if s.disputes.count + 1 >= U64_LIMIT then Err(HostPanic)
    else
      var id := s.disputes.count + 1;
      var d := Dispute(transactionId, amount, Open, s.admins.admin.value, now, 0);
      Ok(s.(disputes := Disputes(s.disputes.items[id := d], id)))
  }

  function ClawAll(l: Balances, e: Env, token: Address, sources: seq<Address>, amounts: seq<int>): Result<Balances>
    requires |sources| == |amounts|
  {
    if sources == [] then Ok(l)
    else
      var k := |sources| - 1;
      match ClawAll(l, e, token, sources[..k], amounts[..k])
      case Err(x) => Err(x)
      case Ok(l') =>
        if amounts[k] <= 0 then Err(AmountNotPositive)
        else if sources[k] !in e.signers then Err(HostPanic)
        else match Transfer(l', token, sources[k], SELF, amounts[k], e.refusing)
          case None => Err(HostPanic)
          case Some(l'') => Ok(l'')
  }

  function ClawbackOp(s: State, e: Env, id: u64, token: Address, sources: seq<Address>, amounts: seq<int>): Result<State> {
    if !AdminSigned(s.admins, e.signers) then Err(HostPanic)
    else if |sources| != |amounts| then Err(LengthMismatch)
    else if |sources| > MAX_RECIPIENTS then Err(TooManyRecipients)
    else match ClawAll(s.treasury.ledger, e, token, sources, amounts)
      case Err(x) => Err(x)
      case Ok(l) => match CloseDispute(s.disputes, e.now, id, ClawedBack)
        case Err(x) => Err(x)
        case Ok(d) => Ok(s.(treasury := s.treasury.(ledger := l), disputes := d))
  }

  function ResolveOp(s: State, now: u64, signers: set<Address>, id: u64): Result<State> {
    if !AdminSigned(s.admins, signers) then Err(HostPanic)
    else match CloseDispute(s.disputes, now, id, Resolved)
      case Err(x) => Err(x)
      case Ok(d) => Ok(s.(disputes := d))
  }

  function SetRateOp(s: State, now: u64, signers: set<Address>, newRate: u32): Result<State> {
    if !AdminSigned(s.admins, signers) then Err(HostPanic)
    else if newRate == 0 then Err(RoyaltyRateZero)
    else if newRate > 10_000 then Err(RoyaltyRateTooHigh)
    else if s.admins.admin.None? then Err(HostPanic)
    else Ok(s.(gov := G.SetRate(s.gov, newRate, now, s.admins.admin.value)))
  }

  function OutsideOp(s: State, token: Address, from: Address, to: Address, amount: int, refusing: set<Address>): Result<State> {
    if from == SELF then Err(HostPanic)
    else match Transfer(s.treasury.ledger, token, from, to, amount, refusing)
      case None => Err(HostPanic)
      case Some(l) => Ok(s.(treasury := s.treasury.(ledger := l)))
  }

  // ----- One call -----

  function LiftAdmins(s: State, r: Result<Admins>): Result<State> {
    match r case Ok(a) => Ok(s.(admins := a)) case Err(e) => Err(e)
  }

  function LiftGov(s: State, r: Result<G.Gov>): Result<State> {
    match r case Ok(g) => Ok(s.(gov := g)) case Err(e) => Err(e)
  }

  predicate Initializes(c: Call) {
    c.Initialize? || c.RevealInitialize?
  }

  predicate IsRegistryCall(c: Call) {
    Initializes(c) || c.SetRecipients? || c.SetDefaultRecipients? || c.UpdateShare? || c.SetIncentivesEnabled?
  }

  predicate IsPrimaryPayment(c: Call) {
    c.DistributeWithOverride? || c.DistributeResilient? || c.BatchDistribute? || c.DistributeWithIncentives?
  }

  predicate IsTreasuryCall(c: Call) {
    c.RecordSecondaryRoyalty? || c.DistributeSecondary? || c.Withdraw? || c.SetApprovedTokens? || c.OutsideTransfer?
  }

  predicate IsPauseCall(c: Call) {
    c.SetPaused? || c.SetAnomalyThreshold? || c.ClearAnomalyThreshold? || c.TriggerEmergencyPause? || c.ClearEmergencyPause?
  }

  predicate IsAdminCall(c: Call) {
    || c.SetAdmins? || c.AdminTransfer? || c.ProposeAdminTransfer? || c.AcceptAdmin? || c.InitiateAdminRotation?
    || c.CancelAdminRotation? || c.FinalizeAdminRotation? || c.SetAdminRotationTimelock?
  }

  predicate IsGovCall(c: Call) {
    c.SetRoyaltyRate? || c.ProposeRateChange? || c.Vote? || c.ExecuteProposal?
  }

  predicate IsDisputeCall(c: Call) {
    c.RecordDispute? || c.ResolveDispute? || c.Clawback?
  }

  ghost function ExecRegistry(s: State, st: Step): Result<State>
    requires IsRegistryCall(st.call)
  {
    match st.call
    case Initialize(cs, shares) => InitializeOp(s, st.env.now, st.env.signers, cs, shares)
    case RevealInitialize(cs, shares, opening) => RevealInitializeOp(s, st.env.now, st.env.signers, cs, shares, opening)
    case SetRecipients(rs) => SetRecipientsOp(s, st.env.now, st.env.signers, rs)
    case SetDefaultRecipients(rs) => SetDefaultsOp(s, st.env.signers, rs)
    case UpdateShare(c, share) => UpdateShareOp(s, st.env.signers, c, share)
    case SetIncentivesEnabled(on) => SetIncentivesOp(s, st.env.signers, on)
  }

  ghost function ExecPrimary(s: State, st: Step): Result<State>
    requires IsPrimaryPayment(st.call)
  {
    match st.call
    case DistributeWithOverride(token, rs) => DistributeOp(s, st.env, token, rs)
    case DistributeResilient(token, rs) => ResilientOp(s, st.env, token, rs)
    case BatchDistribute(tokens) => BatchOp(s, st.env, tokens)
    case DistributeWithIncentives(token) => IncentivesOp(s, st.env, token)
  }

  ghost function ExecTreasury(s: State, st: Step): Result<State>
    requires IsTreasuryCall(st.call)
  {
    match st.call
    case RecordSecondaryRoyalty(token, from, amount) => RecordOp(s, st.env, token, from, amount)
    case DistributeSecondary => SecondaryOp(s, st.env)
    case Withdraw(token, amount) => WithdrawOp(s, st.env, token, amount)
    case SetApprovedTokens(tokens) => SetApprovedOp(s, st.env.signers, tokens)
    case OutsideTransfer(token, from, to, amount) => OutsideOp(s, token, from, to, amount, st.env.refusing)
  }

  ghost function ExecPauses(s: State, st: Step): Result<State>
    requires IsPauseCall(st.call)
  {
    match st.call
    case SetPaused(scope, on) => SetPausedOp(s, st.env.signers, scope, on)
    case SetAnomalyThreshold(x) => SetAnomalyOp(s, st.env.signers, Some(x))
    case ClearAnomalyThreshold => SetAnomalyOp(s, st.env.signers, None)
    case TriggerEmergencyPause => EmergencyOp(s, st.env.signers, true)
    case ClearEmergencyPause => EmergencyOp(s, st.env.signers, false)
  }

  ghost function ExecAdmin(s: State, st: Step): Result<State>
    requires IsAdminCall(st.call)
  {
    LiftAdmins(s, match st.call
      case SetAdmins(list, threshold) => SetAdminsOp(s.admins, st.env.signers, list, threshold)
      case AdminTransfer(a) => AdminTransferOp(s.admins, st.env.signers, a)
      case ProposeAdminTransfer(a) => AdminControl.ProposeOp(s.admins, st.env.signers, a)
      case AcceptAdmin => AcceptOp(s.admins, st.env.signers)
      case InitiateAdminRotation(a) => InitiateOp(s.admins, st.env.signers, st.env.now, a)
      case CancelAdminRotation => CancelOp(s.admins, st.env.signers)
      case FinalizeAdminRotation => FinalizeOp(s.admins, st.env.now)
      case SetAdminRotationTimelock(seconds) => SetTimelockOp(s.admins, st.env.signers, seconds))
  }

  ghost function ExecGov(s: State, st: Step): Result<State>
    requires IsGovCall(st.call)
  {
    match st.call
    case SetRoyaltyRate(rate) => SetRateOp(s, st.env.now, st.env.signers, rate)
    case ProposeRateChange(a, rate, duration) =>
      LiftGov(s, G.ProposeOp(s.gov, s.registry.shareMap, st.env.signers, st.env.now, a, rate, duration))
    case Vote(voter, id, support) =>
      LiftGov(s, G.VoteOp(s.gov, s.registry.shareMap, st.env.signers, st.env.now, voter, id, support))
    case ExecuteProposal(id) => LiftGov(s, G.ExecuteOp(s.gov, st.env.now, id))
  }

  ghost function ExecDisputes(s: State, st: Step): Result<State>
    requires IsDisputeCall(st.call)
  {
    match st.call
    case RecordDispute(tx, amount) => RecordDisputeOp(s, st.env.now, st.env.signers, tx, amount)
    case ResolveDispute(id) => ResolveOp(s, st.env.now, st.env.signers, id)
    case Clawback(id, token, sources, amounts) => ClawbackOp(s, st.env, id, token, sources, amounts)
  }

  /** What a call does when it succeeds, and the error it reports otherwise. */
  ghost function Exec(s: State, st: Step): Result<State> {
    if IsRegistryCall(st.call) then ExecRegistry(s, st)
    else if IsPrimaryPayment(st.call) then ExecPrimary(s, st)
    else if IsTreasuryCall(st.call) then ExecTreasury(s, st)
    else if IsPauseCall(st.call) then ExecPauses(s, st)
    else if IsAdminCall(st.call) then ExecAdmin(s, st)
    else if IsGovCall(st.call) then ExecGov(s, st)
    else ExecDisputes(s, st)
  }

  /** The state after a step; a failing call leaves no trace. */
  ghost function Apply(s: State, st: Step): State {
    match Exec(s, st)
    case Ok(s') => s'
    case Err(_) => s
  }
}
