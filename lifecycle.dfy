/** Properties that tie the handlers together: on a consistent store the
    dashboard's counts agree with one another, and the walk-through of a code
    from redemption to the results. */
module Lifecycle {
  import opened Schema
  import opened Text
  import VoteRoute
  import VotingCodeRoute
  import AdminCandidatesRoute
  import AdminUsersRoute

  /** The codes the votes reference. */
  function VotedCodes(votes: seq<Vote>): (s: set<Id>)
    ensures forall id :: id in s <==> VotesForCode(votes, id) > 0
  {
    if votes == [] then {}
    else VotedCodes(votes[..|votes| - 1]) + {votes[|votes| - 1].votingCodeId}
  }

  /** One vote per code: as many codes are voted as there are votes. */
  lemma {:induction false} VotedCodesCount(votes: seq<Vote>)
    requires OneVotePerCode(votes)
    ensures |VotedCodes(votes)| == |votes|
  {
    if votes != [] {
      var init, v := votes[..|votes| - 1], votes[|votes| - 1];
      assert OneVotePerCode(init) by {
        assert forall i :: 0 <= i < |init| ==> init[i] == votes[i];
      }
      VotedCodesCount(init);
      VotesForCodeZero(init, v.votingCodeId);
      assert v.votingCodeId !in VotedCodes(init);
    }
  }

  /** On a consistent store `usedCodes` is the number of votes. */
  lemma UsedCodesCountVotes(db: Db)
    requires Consistent(db)
    ensures AdminUsersRoute.CodeStatistics(db).usedCodes == |db.votes|
  {
    forall id ensures id in AdminUsersRoute.UsedIds(db.codes) <==> id in VotedCodes(db.votes) {
      if VotesForCode(db.votes, id) > 0 {
        VotesForCodeZero(db.votes, id);
        var k :| 0 <= k < |db.votes| && db.votes[k].votingCodeId == id;
        assert id in db.codes;
      }
    }
    assert AdminUsersRoute.UsedIds(db.codes) == VotedCodes(db.votes);
    VotedCodesCount(db.votes);
  }

  /** On a consistent store the two admin views agree: the candidates' vote
      counts add up to the number of used codes. */
  lemma TalliesMatchUsedCodes(db: Db)
    requires Consistent(db)
    ensures AdminCandidatesRoute.TotalVotes(AdminCandidatesRoute.ListCandidates(db))
         == AdminUsersRoute.CodeStatistics(db).usedCodes
  {
    AdminCandidatesRoute.TalliesAddUpToVotes(db);
    UsedCodesCountVotes(db);
  }

  lemma {:induction false} BallotsCountVotes(votes: seq<Vote>, candidates: map<Id, Candidate>, id: Id)
    requires forall k :: 0 <= k < |votes| ==> votes[k].candidateId in candidates
    ensures |AdminUsersRoute.BallotsOf(votes, candidates, id)| == VotesForCode(votes, id)
  {
    if votes != [] {
      BallotsCountVotes(votes[..|votes| - 1], candidates, id);
    }
  }

  /** The ballots of a code referenced by exactly one vote: that vote's candidate. */
  lemma {:induction false} BallotIsVotedCandidate(votes: seq<Vote>, candidates: map<Id, Candidate>, id: Id, k: nat)
    requires k < |votes| && votes[k].votingCodeId == id && votes[k].candidateId in candidates
    requires VotesForCode(votes, id) == 1
    ensures var c := candidates[votes[k].candidateId];
      AdminUsersRoute.BallotsOf(votes, candidates, id) == [AdminUsersRoute.Ballot(c.name, c.party)]
  {
    var init, v := votes[..|votes| - 1], votes[|votes| - 1];
    if k == |votes| - 1 {
      assert VotesForCode(init, id) == 0;
    } else {
      assert init[k] == votes[k];
      VotesForCodeZero(init, id);
      BallotIsVotedCandidate(init, candidates, id, k);
    }
  }

  /** On a consistent store every row of `recentActivity` shows exactly one
      ballot: the name and party of the candidate the code's vote names. */
  lemma ActivityShowsOneBallot(db: Db, id: Id)
    requires Consistent(db)
    requires id in db.codes && db.codes[id].isUsed
    ensures |AdminUsersRoute.ActivityOf(db, id).votes| == 1
    ensures forall k :: 0 <= k < |db.votes| && db.votes[k].votingCodeId == id ==>
      var c := db.candidates[db.votes[k].candidateId];
      AdminUsersRoute.ActivityOf(db, id).votes == [AdminUsersRoute.Ballot(c.name, c.party)]
  {
    BallotsCountVotes(db.votes, db.candidates, id);
    AtMostOneVoteEach(db.votes, id);
    forall k | 0 <= k < |db.votes| && db.votes[k].votingCodeId == id
      ensures var c := db.candidates[db.votes[k].candidateId];
        AdminUsersRoute.ActivityOf(db, id).votes == [AdminUsersRoute.Ballot(c.name, c.party)]
    {
      BallotIsVotedCandidate(db.votes, db.candidates, id, k);
    }
  }

  // ---------------------------------------------------------------------------
  // A walk-through

  const Alice := "Alice"

  function Candidates(): map<Id, Candidate> {
    map["x" := Candidate("Xavier", "Party X", "", "President"),
        "y" := Candidate("Yolanda", "Party Y", "", "President")]
  }

  function Provisioned(): Db {
    Db(map["c1" := VotingCode("ABC12345", None, false, None)], Candidates(), [], map[])
  }

  function Staged(): Db {
    Db(map["c1" := VotingCode("ABC12345", Some(Alice), false, None)], Candidates(), [], map[])
  }

  function Voted(now: nat): Db {
    Db(map["c1" := VotingCode("ABC12345", Some(Alice), true, Some(now))], Candidates(), [Vote("c1", "x")], map[])
  }

  lemma TypedInLowerCase()
    ensures ToUpper("abc12345") == "ABC12345"
  {
  }

  lemma NameTrimmed()
    ensures Trim(" Alice ") == Alice
  {
    assert FirstNonSpace(" Alice ") == 1;
    assert EndNonSpace(" Alice ") == 6;
  }

  /** The code is typed in lower case and the name with spaces around it. */
  lemma RedeemStep()
    ensures CodesUnique(Provisioned().codes)
    ensures VotingCodeRoute.Redeem(Provisioned(), Some("abc12345"), Some(" Alice "))
         == Step(Staged(), Ok(VotingCodeRoute.Session("c1", Alice, VotingCodeRoute.Authenticated)))
  {
    var db := Provisioned();
    TypedInLowerCase();
    NameTrimmed();
    VotingCodeRoute.RedeemFindsAnyCase(db, "c1", "abc12345", " Alice ");
    var s := VotingCodeRoute.Redeem(db, Some("abc12345"), Some(" Alice "));
    assert s.db.codes == Staged().codes;
  }

  lemma UnknownCodeStep()
    ensures CodesUnique(Provisioned().codes)
    ensures VotingCodeRoute.Redeem(Provisioned(), Some("ZZZZZZZZ"), Some("Bob")).reply
         == Error(401, VotingCodeRoute.InvalidCode)
  {
    assert ToUpper("ZZZZZZZZ") == "ZZZZZZZZ";
  }

  lemma VoteStep(now: nat)
    ensures VoteRoute.Commit(Staged(), Some("c1"), Some("x"), now)
         == Step(Voted(now), Ok(VoteRoute.Receipt(VoteRoute.VoteCast, Some(Alice))))
  {
  }

  /** A second vote with the same code is refused and changes nothing. */
  lemma SecondVoteStep(now: nat, later: nat)
    ensures VoteRoute.Commit(Voted(now), Some("c1"), Some("y"), later)
         == Step(Voted(now), Error(400, VoteRoute.AlreadyUsed))
  {
  }

  /** After the vote the store is consistent; x has one vote and y none. */
  lemma VotedState(now: nat)
    ensures Consistent(Voted(now))
    ensures VotesForCandidate(Voted(now).votes, "x") == 1
    ensures VotesForCandidate(Voted(now).votes, "y") == 0
  {
    assert Consistent(Staged());
    VoteStep(now);
    VoteRoute.CommitKeepsConsistent(Staged(), Some("c1"), Some("x"), now);
  }

  /** Code ABC12345, typed in lower case, is redeemed for Alice; a vote for x
      succeeds once; a second vote with the same code, for y, is refused; x
      then has one vote and y none, and the store is consistent throughout. A
      code that does not exist is refused. */
  lemma Walkthrough(now: nat, later: nat)
    ensures CodesUnique(Provisioned().codes)
    ensures var redeemed := VotingCodeRoute.Redeem(Provisioned(), Some("abc12345"), Some(" Alice "));
      var first := VoteRoute.Commit(redeemed.db, Some("c1"), Some("x"), now);
      var second := VoteRoute.Commit(first.db, Some("c1"), Some("y"), later);
      && redeemed.reply.Ok? && redeemed.reply.body.votingCodeId == "c1" && redeemed.reply.body.voterName == Alice
      && first.reply == Ok(VoteRoute.Receipt(VoteRoute.VoteCast, Some(Alice)))
      && second.reply == Error(400, VoteRoute.AlreadyUsed)
      && VotesForCandidate(second.db.votes, "x") == 1
      && VotesForCandidate(second.db.votes, "y") == 0
      && Consistent(second.db)
    ensures VotingCodeRoute.Redeem(Provisioned(), Some("ZZZZZZZZ"), Some("Bob")).reply == Error(401, VotingCodeRoute.InvalidCode)
  {
    RedeemStep();
    UnknownCodeStep();
    VoteStep(now);
    SecondVoteStep(now, later);
    VotedState(now);
  }
}
