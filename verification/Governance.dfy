/** Share-weighted proposals to change the royalty rate. */
module Governance {
  import opened Types
  import opened Recipients
  import opened Split

  const RATE_HISTORY_CAP: int := 20
  const MIN_PROPOSAL_DURATION: int := 3_600
  const MAX_PROPOSAL_DURATION: int := 1_209_600
  const TOTAL_SHARE_WEIGHT: int := 10_000

  datatype RateChange = RateChange(oldRate: u32, newRate: u32, timestamp: u64, caller: Address)

  datatype Proposal = Proposal(
    newRate: u32,
    proposer: Address,
    createdAt: u64,
    deadline: u64,
    yesWeight: u32,
    noWeight: u32,
    executed: bool,
    rejected: bool)

  datatype Gov = Gov(
    proposals: map<u64, Proposal>,
    votes: map<u64, map<Address, bool>>,
    count: u64,
    rate: u32,
    history: seq<RateChange>)

  function Append(history: seq<RateChange>, change: RateChange): seq<RateChange> {
    (if |history| >= RATE_HISTORY_CAP then history[1..] else history) + [change]
  }

  function SetRate(g: Gov, newRate: u32, now: u64, caller: Address): Gov {
    g.(rate := newRate, history := Append(g.history, RateChange(g.rate, newRate, now, caller)))
  }

  function VotesOn(g: Gov, id: u64): map<Address, bool> {
    if id in g.votes then g.votes[id] else map[]
  }

  function ProposeOp(g: Gov, shares: Option<map<Address, u32>>, signers: set<Address>, now: u64,
                     proposer: Address, newRate: u32, duration: u64): Result<Gov>
  {
    if proposer !in signers then Err(HostPanic)
    else if shares.None? then Err(NoShareMap)
    else if proposer !in shares.value then Err(CollaboratorNotFound)
    else if newRate == 0 then Err(RoyaltyRateZero)
    else if newRate > 10_000 then Err(RoyaltyRateTooHigh)
    else if duration < MIN_PROPOSAL_DURATION || duration > MAX_PROPOSAL_DURATION then Err(InvalidProposalDuration)
    else if g.count + 1 >= U64_LIMIT then Err(HostPanic)
    else
      var p := Proposal(newRate, proposer, now, SaturatingAdd(now, duration, U64_LIMIT), 0, 0, false, false);
      Ok(g.(proposals := g.proposals[g.count + 1 := p], count := g.count + 1))
  }

  function VoteOp(g: Gov, shares: Option<map<Address, u32>>, signers: set<Address>, now: u64,
                  voter: Address, id: u64, support: bool): Result<Gov>
  {
    if voter !in signers then Err(HostPanic)
    else if shares.None? then Err(NoShareMap)
    else if voter !in shares.value then Err(CollaboratorNotFound)
    else if id !in g.proposals then Err(ProposalNotFound)
    else
      var p := g.proposals[id];
      if p.executed || p.rejected then Err(ProposalAlreadyExecuted)
      else if now >= p.deadline then Err(ProposalVotingClosed)
      else if voter in VotesOn(g, id) then Err(AlreadyVoted)
      else
        var weight := shares.value[voter];
        var p' := if support then p.(yesWeight := SaturatingAdd(p.yesWeight, weight, U32_LIMIT))
                  else p.(noWeight := SaturatingAdd(p.noWeight, weight, U32_LIMIT));
        Ok(g.(proposals := g.proposals[id := p'], votes := g.votes[id := VotesOn(g, id)[voter := support]]))
  }

  function Passed(p: Proposal): bool {
    p.yesWeight > TOTAL_SHARE_WEIGHT / 2 && p.yesWeight > p.noWeight
  }

  function ExecuteOp(g: Gov, now: u64, id: u64): Result<Gov> {
    if id !in g.proposals then Err(ProposalNotFound)
    else
      var p := g.proposals[id];
      if p.executed || p.rejected then Err(ProposalAlreadyExecuted)
      else if now < p.deadline then Err(ProposalStillOpen)
      else if !Passed(p) then Ok(g.(proposals := g.proposals[id := p.(rejected := true)]))
      else
        var g' := SetRate(g, p.newRate, now, p.proposer);
        Ok(g'.(proposals := g.proposals[id := p.(executed := true)]))
  }

  /** Ids are handed out in order, votes exist only for proposals, and no proposal is both
      executed and rejected. */
  ghost predicate GovInv(g: Gov) {
    && (forall id :: id in g.proposals ==> 1 <= id <= g.count)
    && (forall id :: id in g.votes ==> id in g.proposals)
    && (forall id :: id in g.proposals ==> !(g.proposals[id].executed && g.proposals[id].rejected))
    && (forall id :: id in g.proposals ==> 1 <= g.proposals[id].newRate <= 10_000)
    && |g.history| <= RATE_HISTORY_CAP
    && 0 <= g.rate <= 10_000
  }

  /** Every governance call keeps the invariant. */
  lemma ProposeKeepsGovInv(g: Gov, shares: Option<map<Address, u32>>, signers: set<Address>, now: u64, who: Address,
                           newRate: u32, duration: u64)
    requires GovInv(g)
    ensures var r := ProposeOp(g, shares, signers, now, who, newRate, duration); r.Ok? ==> GovInv(r.value)
  {
  }

  lemma VoteKeepsGovInv(g: Gov, shares: Option<map<Address, u32>>, signers: set<Address>, now: u64, who: Address, id: u64,
                        support: bool)
    requires GovInv(g)
    ensures var r := VoteOp(g, shares, signers, now, who, id, support); r.Ok? ==> GovInv(r.value)
  {
  }

  lemma ExecuteKeepsGovInv(g: Gov, now: u64, id: u64)
    requires GovInv(g)
    ensures var r := ExecuteOp(g, now, id); r.Ok? ==> GovInv(r.value)
  {
  }

  /** What a vote may do to a proposal and its votes. */
  lemma VoteEffect(g: Gov, shares: Option<map<Address, u32>>, signers: set<Address>, now: u64, voter: Address, on: u64,
                   support: bool, id: u64)
    requires VoteOp(g, shares, signers, now, voter, on, support).Ok?
    ensures var g' := VoteOp(g, shares, signers, now, voter, on, support).value;
      && (if id == on then voter !in VotesOn(g, id) && VotesOn(g', id) == VotesOn(g, id)[voter := support]
          else VotesOn(g', id) == VotesOn(g, id))
      && g'.proposals.Keys == g.proposals.Keys
      && (id in g.proposals && id != on ==> g'.proposals[id] == g.proposals[id])
      && on in g.proposals && !Closed(g.proposals[on]) && now < g.proposals[on].deadline
      && g'.proposals[on] == g.proposals[on].(yesWeight := g'.proposals[on].yesWeight, noWeight := g'.proposals[on].noWeight)
  {
  }

  /** What settling a proposal may do to the proposals; it leaves all votes alone. */
  lemma ExecuteEffect(g: Gov, now: u64, on: u64, id: u64)
    requires ExecuteOp(g, now, on).Ok?
    ensures var g' := ExecuteOp(g, now, on).value;
      && g'.votes == g.votes && g'.proposals.Keys == g.proposals.Keys
      && (id in g.proposals && id != on ==> g'.proposals[id] == g.proposals[id])
      && on in g.proposals && !Closed(g.proposals[on]) && now >= g.proposals[on].deadline
      && g'.proposals[on] == g.proposals[on].(executed := g'.proposals[on].executed, rejected := g'.proposals[on].rejected)
  {
  }

  /** A new proposal leaves the others and all votes alone. */
  lemma ProposeEffect(g: Gov, shares: Option<map<Address, u32>>, signers: set<Address>, now: u64, who: Address,
                      newRate: u32, duration: u64, id: u64)
    requires ProposeOp(g, shares, signers, now, who, newRate, duration).Ok?
    ensures var g' := ProposeOp(g, shares, signers, now, who, newRate, duration).value;
      && g'.votes == g.votes
      && (GovInv(g) && id in g.proposals ==> id in g'.proposals && g'.proposals[id] == g.proposals[id])
  {
  }

  predicate Closed(p: Proposal) {
    p.executed || p.rejected
  }

  /** The share of one listed collaborator if it voted `support`, and 0 otherwise. */
  function Weights(rs: seq<Recipient>, votes: map<Address, bool>, support: bool): (r: seq<int>)
    ensures |r| == |rs|
  {
    seq(|rs|, i requires 0 <= i < |rs| =>
      if rs[i].address in votes && votes[rs[i].address] == support then rs[i].share else 0)
  }

  /** The tally is exact: each weight is the share sum of the distinct collaborators that voted
      that way, and everyone who voted is a collaborator. */
  ghost predicate TallyExact(g: Gov, rs: seq<Recipient>, id: u64) {
    && id in g.proposals
    && (forall a :: a in VotesOn(g, id) ==> a in Addresses(rs))
    && g.proposals[id].yesWeight == Sum(Weights(rs, VotesOn(g, id), true))
    && g.proposals[id].noWeight == Sum(Weights(rs, VotesOn(g, id), false))
  }

  /** No two voters are counted twice: both tallies together stay within the share total. */
  lemma {:induction false} WeightsWithinTotal(rs: seq<Recipient>, votes: map<Address, bool>)
    ensures 0 <= Sum(Weights(rs, votes, true)) && 0 <= Sum(Weights(rs, votes, false))
    ensures Sum(Weights(rs, votes, true)) + Sum(Weights(rs, votes, false)) <= Sum(Shares(rs))
  {
    if rs != [] {
      var k := |rs| - 1;
      WeightsWithinTotal(rs[..k], votes);
      WeightsSnoc(rs, votes, true);
      WeightsSnoc(rs, votes, false);
      SharesSnoc(rs);
    }
  }

  lemma WeightsSnoc(rs: seq<Recipient>, votes: map<Address, bool>, support: bool)
    requires rs != []
    ensures var k := |rs| - 1;
      Sum(Weights(rs, votes, support)) == Sum(Weights(rs[..k], votes, support))
        + if rs[k].address in votes && votes[rs[k].address] == support then rs[k].share else 0
  {
    var k := |rs| - 1;
    var w := Weights(rs, votes, support)[k];
    assert Weights(rs, votes, support) == Weights(rs[..k], votes, support) + [w];
    SumAppend(Weights(rs[..k], votes, support), w);
  }

  lemma {:induction false} NoVotesNoWeight(rs: seq<Recipient>, support: bool)
    ensures Sum(Weights(rs, map[], support)) == 0
  {
    if rs != [] {
      NoVotesNoWeight(rs[..|rs| - 1], support);
      WeightsSnoc(rs, map[], support);
    }
  }

  /** A first vote by the collaborator at position i moves exactly its share to one side. */
  lemma {:induction false} FirstVoteAddsShare(rs: seq<Recipient>, votes: map<Address, bool>, i: nat, vote: bool, support: bool)
    requires i < |rs| && Distinct(Addresses(rs)) && rs[i].address !in votes
    ensures Sum(Weights(rs, votes[rs[i].address := vote], support))
         == Sum(Weights(rs, votes, support)) + if vote == support then rs[i].share else 0
  {
    var k := |rs| - 1;
    var votes' := votes[rs[i].address := vote];
    assert Addresses(rs)[i] == rs[i].address && Addresses(rs)[k] == rs[k].address;
    WeightsSnoc(rs, votes, support);
    WeightsSnoc(rs, votes', support);
    forall p, q | 0 <= p < q < k ensures Addresses(rs[..k])[p] != Addresses(rs[..k])[q] {
      assert Addresses(rs)[p] != Addresses(rs)[q];
    }
    if i < k {
      FirstVoteAddsShare(rs[..k], votes, i, vote, support);
    } else {
      forall j | 0 <= j < k ensures Weights(rs[..k], votes', support)[j] == Weights(rs[..k], votes, support)[j] {
        assert Addresses(rs)[j] == rs[j].address;
      }
      assert Weights(rs[..k], votes', support) == Weights(rs[..k], votes, support);
    }
  }

  /** A new proposal starts with an exact, empty tally under a fresh id. */
  lemma ProposeStartsTally(g: Gov, shares: Option<map<Address, u32>>, signers: set<Address>, now: u64,
                           proposer: Address, newRate: u32, duration: u64, rs: seq<Recipient>)
    requires GovInv(g) && ProposeOp(g, shares, signers, now, proposer, newRate, duration).Ok?
    ensures var g' := ProposeOp(g, shares, signers, now, proposer, newRate, duration).value;
      && GovInv(g') && g'.count !in g.proposals
      && TallyExact(g', rs, g'.count)
      && !g'.proposals[g'.count].executed && !g'.proposals[g'.count].rejected
  {
    var g' := ProposeOp(g, shares, signers, now, proposer, newRate, duration).value;
    assert VotesOn(g', g'.count) == map[];
    NoVotesNoWeight(rs, true);
    NoVotesNoWeight(rs, false);
  }

  /** A vote keeps the tally of every proposal exact. */
  lemma VoteKeepsTally(g: Gov, rs: seq<Recipient>, shares: map<Address, u32>, signers: set<Address>, now: u64,
                       voter: Address, id: u64, support: bool, watched: u64)
    requires ValidRecipients(rs) && shares == ToMap(rs)
    requires TallyExact(g, rs, watched)
    requires VoteOp(g, Some(shares), signers, now, voter, id, support).Ok?
    ensures TallyExact(VoteOp(g, Some(shares), signers, now, voter, id, support).value, rs, watched)
  {
    var g' := VoteOp(g, Some(shares), signers, now, voter, id, support).value;
    if id == watched {
      ToMapMeaning(rs);
      var i :| 0 <= i < |rs| && Addresses(rs)[i] == voter;
      assert rs[i].address == voter && shares[voter] == rs[i].share;
      assert VotesOn(g', id) == VotesOn(g, id)[voter := support];
      FirstVoteAddsShare(rs, VotesOn(g, id), i, support, true);
      FirstVoteAddsShare(rs, VotesOn(g, id), i, support, false);
      WeightsWithinTotal(rs, VotesOn(g', id));
    } else {
      assert VotesOn(g', watched) == VotesOn(g, watched);
    }
  }

  /** With an exact tally the two-part passing test is just a yes vote above half of all shares. */
  lemma PassedIffMajority(g: Gov, rs: seq<Recipient>, id: u64)
    requires ValidRecipients(rs) && TallyExact(g, rs, id)
    ensures Passed(g.proposals[id]) <==> Sum(Weights(rs, VotesOn(g, id), true)) > 5_000
    ensures g.proposals[id].yesWeight + g.proposals[id].noWeight <= 10_000
  {
    WeightsWithinTotal(rs, VotesOn(g, id));
  }
}
