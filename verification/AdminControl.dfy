/** Who may act for the contract: the admin, the multi-signature list, direct transfer,
    propose/accept transfer, and the timelocked rotation. */
module AdminControl {
  import opened Types
  import opened Recipients

  const MAX_ADMIN_LIST: int := 10
  const DEFAULT_ADMIN_ROTATION_TIMELOCK: int := 172_800
  const MIN_ADMIN_ROTATION_TIMELOCK: int := 3_600
  const MAX_ADMIN_ROTATION_TIMELOCK: int := 2_592_000

  datatype Rotation = Rotation(newAdmin: Address, initiatedAt: u64)

  /** `list == []` stands for an absent admin list: `set_admins` never stores an empty one. */
  datatype Admins = Admins(
    admin: Option<Address>,
    list: seq<Address>,
    threshold: u32,
    proposed: Option<Address>,
    rotation: Option<Rotation>,
    timelock: Option<u64>)

  /** The first `threshold` listed admins have signed, or the single admin when there is no list. */
  predicate AdminSigned(a: Admins, signers: set<Address>) {
    if a.list != [] then
      a.threshold <= |a.list| && forall i :: 0 <= i < a.threshold ==> a.list[i] in signers
    else a.admin.Some? && a.admin.value in signers
  }

  /** Lifting the emergency pause takes every listed admin. */
  predicate AllAdminsSigned(a: Admins, signers: set<Address>) {
    if a.list != [] then forall i :: 0 <= i < |a.list| ==> a.list[i] in signers
    else a.admin.Some? && a.admin.value in signers
  }

  function TimelockOf(a: Admins): u64 {
    if a.timelock.Some? then a.timelock.value else DEFAULT_ADMIN_ROTATION_TIMELOCK
  }

  ghost function SetAdminsOp(a: Admins, signers: set<Address>, list: seq<Address>, threshold: u32): Result<Admins> {
    if !AdminSigned(a, signers) || list == [] then Err(HostPanic)
    else if |list| > MAX_ADMIN_LIST then Err(InputTooLarge)
    else if threshold < 1 || threshold > |list| || !Distinct(list) then Err(HostPanic)
    else Ok(a.(list := list, threshold := threshold))
  }

  function AdminTransferOp(a: Admins, signers: set<Address>, newAdmin: Address): Result<Admins> {
    if a.list != [] || a.admin.None? || a.admin.value !in signers then Err(HostPanic)
    else Ok(a.(admin := Some(newAdmin)))
  }

  function ProposeOp(a: Admins, signers: set<Address>, newAdmin: Address): Result<Admins> {
    if !AdminSigned(a, signers) then Err(HostPanic)
    else Ok(a.(proposed := Some(newAdmin)))
  }

  function AcceptOp(a: Admins, signers: set<Address>): Result<Admins> {
    if a.proposed.None? || a.proposed.value !in signers || a.admin.None? then Err(HostPanic)
    else Ok(a.(admin := a.proposed, proposed := None))
  }

  function InitiateOp(a: Admins, signers: set<Address>, now: u64, newAdmin: Address): Result<Admins> {
    if !AdminSigned(a, signers) then Err(HostPanic)
    else Ok(a.(rotation := Some(Rotation(newAdmin, now))))
  }

  function CancelOp(a: Admins, signers: set<Address>): Result<Admins> {
    if !AdminSigned(a, signers) || a.rotation.None? then Err(HostPanic)
    else Ok(a.(rotation := None))
  }

  /** Needs no signature: anyone may finalize once the timelock has run. */
  function FinalizeOp(a: Admins, now: u64): Result<Admins> {
    if a.rotation.None? then Err(HostPanic)
    else
      var readyAt := a.rotation.value.initiatedAt + TimelockOf(a);
      if readyAt >= U64_LIMIT || now < readyAt || a.admin.None? then Err(HostPanic)
      else Ok(a.(admin := Some(a.rotation.value.newAdmin), rotation := None))
  }

  function SetTimelockOp(a: Admins, signers: set<Address>, seconds: u64): Result<Admins> {
    if !AdminSigned(a, signers) || seconds < MIN_ADMIN_ROTATION_TIMELOCK || seconds > MAX_ADMIN_ROTATION_TIMELOCK
    then Err(HostPanic)
    else Ok(a.(timelock := Some(seconds)))
  }

  /** The timelock in force is always within its bounds, and a stored list always has a usable threshold. */
  ghost predicate AdminsInv(a: Admins) {
    && MIN_ADMIN_ROTATION_TIMELOCK <= TimelockOf(a) <= MAX_ADMIN_ROTATION_TIMELOCK
    && (a.list != [] ==> 1 <= a.threshold <= |a.list| <= MAX_ADMIN_LIST && Distinct(a.list))
  }

  /** Lifting the emergency pause never takes fewer signatures than setting it, and takes the same
      ones exactly without a list or with a threshold of all its members. */
  lemma ClearingTakesMore(a: Admins)
    requires AdminsInv(a)
    ensures forall signers :: AllAdminsSigned(a, signers) ==> AdminSigned(a, signers)
    ensures (forall signers :: AdminSigned(a, signers) ==> AllAdminsSigned(a, signers))
            <==> a.list == [] || a.threshold == |a.list|
  {
    if a.list != [] && a.threshold < |a.list| {
      var first := set x | x in a.list[..a.threshold];
      assert forall i :: 0 <= i < a.threshold ==> a.list[..a.threshold][i] == a.list[i];
      assert AdminSigned(a, first);
      assert a.list[|a.list| - 1] !in a.list[..a.threshold];
      assert !AllAdminsSigned(a, first);
    }
  }
}
