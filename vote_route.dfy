/** POST /api/vote: the guard chain in front of a ballot and the transaction
    that records it (src/app/api/vote/route.ts). */
module VoteRoute {
  import opened Schema

  const FieldsRequired := "Voting code ID and candidate ID required"
  const InvalidSession := "Invalid voting session"
  const AlreadyUsed := "This voting code has already been used"
  const InvalidCandidate := "Invalid candidate"
  const VoteCast := "Vote cast successfully"

  /** The success body: the message and the name staged on the code at redemption. */
  datatype Receipt = Receipt(message: string, voterName: Option<string>)

  /** The guards a vote must pass, in the order the handler checks them. */
  predicate MayVote(db: Db, votingCodeId: Option<Id>, candidateId: Option<Id>) {
    && Present(votingCodeId) && Present(candidateId)
    && votingCodeId.value in db.codes
    && !db.codes[votingCodeId.value].isUsed
    && VotesForCode(db.votes, votingCodeId.value) == 0
    && candidateId.value in db.candidates
  }

  /** The two statements of the transaction as one step: add the vote and
      mark its code used at `now`. */
  function Record(db: Db, codeId: Id, candidateId: Id, now: nat): (after: Db)
    requires codeId in db.codes
    ensures after.votes == db.votes + [Vote(codeId, candidateId)]
    ensures after.codes.Keys == db.codes.Keys
    ensures after.codes[codeId] == db.codes[codeId].(isUsed := true, usedAt := Some(now))
    ensures forall id :: id in db.codes && id != codeId ==> after.codes[id] == db.codes[id]
    ensures after.candidates == db.candidates && after.users == db.users
  {
    db.(votes := db.votes + [Vote(codeId, candidateId)],
        codes := db.codes[codeId := db.codes[codeId].(isUsed := true, usedAt := Some(now))])
  }

  /** The handler: which reply each request gets and what it writes. */
  function Commit(db: Db, votingCodeId: Option<Id>, candidateId: Option<Id>, now: nat): (s: Step<Receipt>)
    // each guard, in order, with its own status and message
    ensures s.reply == Error(400, FieldsRequired) <==> !Present(votingCodeId) || !Present(candidateId)
    ensures s.reply == Error(404, InvalidSession) <==>
      Present(votingCodeId) && Present(candidateId) && votingCodeId.value !in db.codes
    ensures s.reply == Error(400, AlreadyUsed) <==>
      && Present(votingCodeId) && Present(candidateId) && votingCodeId.value in db.codes
      && (db.codes[votingCodeId.value].isUsed || VotesForCode(db.votes, votingCodeId.value) > 0)
    ensures s.reply == Error(404, InvalidCandidate) <==>
      && Present(votingCodeId) && Present(candidateId) && votingCodeId.value in db.codes
      && !db.codes[votingCodeId.value].isUsed && VotesForCode(db.votes, votingCodeId.value) == 0
      && candidateId.value !in db.candidates
    ensures s.reply.Ok? <==> MayVote(db, votingCodeId, candidateId)
    // a rejection writes nothing
    ensures s.reply.Error? ==> s.db == db
    // a success writes both rows and returns the staged name
    ensures s.reply.Ok? ==>
      && s.db == Record(db, votingCodeId.value, candidateId.value, now)
      && s.reply.body == Receipt(VoteCast, db.codes[votingCodeId.value].voterName)
  {
    if !Present(votingCodeId) || !Present(candidateId) then
      Step(db, Error(400, FieldsRequired))
    else
      var codeId, candidate := votingCodeId.value, candidateId.value;
      if codeId !in db.codes then
        Step(db, Error(404, InvalidSession))
      else if db.codes[codeId].isUsed || VotesForCode(db.votes, codeId) > 0 then
        Step(db, Error(400, AlreadyUsed))
      else if candidate !in db.candidates then
        Step(db, Error(404, InvalidCandidate))
      else
        Step(Record(db, codeId, candidate, now), Ok(Receipt(VoteCast, db.codes[codeId].voterName)))
  }

  // ---------------------------------------------------------------------------
  // The invariants a commit preserves

  /** The vote-count check alone keeps one vote per code, whatever `isUsed` says. */
  lemma CommitKeepsOneVotePerCode(db: Db, votingCodeId: Option<Id>, candidateId: Option<Id>, now: nat)
    requires OneVotePerCode(db.votes)
    ensures OneVotePerCode(Commit(db, votingCodeId, candidateId, now).db.votes)
  {
    var s := Commit(db, votingCodeId, candidateId, now);
    if s.reply.Ok? {
      VotesForCodeZero(db.votes, votingCodeId.value);
    }
  }

  lemma CommitKeepsUsedIffVoted(db: Db, votingCodeId: Option<Id>, candidateId: Option<Id>, now: nat)
    requires UsedIffVoted(db)
    ensures UsedIffVoted(Commit(db, votingCodeId, candidateId, now).db)
  {
    var s := Commit(db, votingCodeId, candidateId, now);
    if s.reply.Ok? {
      var v := Vote(votingCodeId.value, candidateId.value);
      forall id | id in s.db.codes
        ensures s.db.codes[id].isUsed <==> VotesForCode(s.db.votes, id) > 0
      {
        VotesForCodeAppend(db.votes, v, id);
      }
    }
  }

  lemma CommitKeepsConsistent(db: Db, votingCodeId: Option<Id>, candidateId: Option<Id>, now: nat)
    requires Consistent(db)
    ensures Consistent(Commit(db, votingCodeId, candidateId, now).db)
  {
    CommitKeepsOneVotePerCode(db, votingCodeId, candidateId, now);
    CommitKeepsUsedIffVoted(db, votingCodeId, candidateId, now);
    var s := Commit(db, votingCodeId, candidateId, now);
    if s.reply.Ok? {
      assert CodesUnique(s.db.codes) by {
        forall a, b | a in s.db.codes && b in s.db.codes && s.db.codes[a].code == s.db.codes[b].code
          ensures a == b
        {
          assert db.codes[a].code == db.codes[b].code;
        }
      }
    }
  }

  /** A code votes once: after a successful commit, any further commit with the
      same code is rejected (as already used, when it names a candidate) and
      writes nothing, and the code is referenced by exactly one vote. */
  lemma SecondCommitFails(db: Db, votingCodeId: Option<Id>, candidateId: Option<Id>, now: nat,
                          otherCandidateId: Option<Id>, later: nat)
    requires Commit(db, votingCodeId, candidateId, now).reply.Ok?
    ensures var first := Commit(db, votingCodeId, candidateId, now);
      var second := Commit(first.db, votingCodeId, otherCandidateId, later);
      && second.reply.Error?
      && (Present(otherCandidateId) ==> second.reply == Error(400, AlreadyUsed))
      && second.db == first.db
      && VotesForCode(second.db.votes, votingCodeId.value) == 1
  {
    var first := Commit(db, votingCodeId, candidateId, now);
    VotesForCodeAppend(db.votes, Vote(votingCodeId.value, candidateId.value), votingCodeId.value);
    assert first.db.codes[votingCodeId.value].isUsed;
  }

  /** A successful commit adds one ballot to its candidate's count and none to any other. */
  lemma CommitCountsOneBallot(db: Db, votingCodeId: Option<Id>, candidateId: Option<Id>, now: nat, c: Id)
    requires Commit(db, votingCodeId, candidateId, now).reply.Ok?
    ensures VotesForCandidate(Commit(db, votingCodeId, candidateId, now).db.votes, c)
         == VotesForCandidate(db.votes, c) + (if c == candidateId.value then 1 else 0)
  {
    VotesForCandidateAppend(db.votes, Vote(votingCodeId.value, candidateId.value), c);
  }
}
