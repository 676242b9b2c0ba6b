/** The tables the route handlers read and write (VotingCode, Candidate, Vote,
    User), a snapshot of the whole store, the replies handlers send, and the
    invariants the vote lifecycle is meant to keep. */
module Schema {

  datatype Option<T> = None | Some(value: T)

  /** Row identifiers, generated by the database. */
  type Id = string

  datatype Role = ADMIN | VOTER

  /** A single-use code. `usedAt` is a timestamp, passed in by the caller. */
  datatype VotingCode = VotingCode(code: string, voterName: Option<string>, isUsed: bool, usedAt: Option<nat>)

  datatype Candidate = Candidate(name: string, party: string, description: string, position: string)

  datatype Vote = Vote(votingCodeId: Id, candidateId: Id)

  /** `password` holds the bcrypt hash, never the password itself. */
  datatype User = User(id: Id, name: string, password: string, role: Role)

  /** A user as a handler sends it back: every field but the password hash. */
  datatype PublicUser = PublicUser(id: Id, email: string, name: string, role: Role)

  /** The store: codes and candidates keyed by id, votes in insertion order,
      users keyed by their (unique) email. */
  datatype Db = Db(
    codes: map<Id, VotingCode>,
    candidates: map<Id, Candidate>,
    votes: seq<Vote>,
    users: map<string, User>)

  /** A handler's answer: a 200 with its body, or an error status and message. */
  datatype Reply<T> = Ok(body: T) | Error(status: nat, message: string)

  /** The store after a handler ran, and what it replied. */
  datatype Step<T> = Step(db: Db, reply: Reply<T>)

  /** JavaScript truthiness of a string field of a JSON body: it was sent and is not "". */
  predicate Present(field: Option<string>) {
    field.Some? && field.value != ""
  }

  function Hide(email: string, u: User): PublicUser {
    PublicUser(u.id, email, u.name, u.role)
  }

  /** `votingCode.votes.length`: how many votes reference the code. */
  function VotesForCode(votes: seq<Vote>, codeId: Id): (n: nat)
    ensures n <= |votes|
  {
    if votes == [] then 0
    else VotesForCode(votes[..|votes| - 1], codeId) + (if votes[|votes| - 1].votingCodeId == codeId then 1 else 0)
  }

  /** `_count.votes` of a candidate: how many votes reference it. */
  function VotesForCandidate(votes: seq<Vote>, candidateId: Id): (n: nat)
    ensures n <= |votes|
  {
    if votes == [] then 0
    else VotesForCandidate(votes[..|votes| - 1], candidateId) + (if votes[|votes| - 1].candidateId == candidateId then 1 else 0)
  }

  lemma {:induction false} VotesForCodeZero(votes: seq<Vote>, codeId: Id)
    ensures VotesForCode(votes, codeId) == 0 <==> forall i :: 0 <= i < |votes| ==> votes[i].votingCodeId != codeId
  {
    if votes != [] {
      var init := votes[..|votes| - 1];
      VotesForCodeZero(init, codeId);
      assert forall i :: 0 <= i < |init| ==> init[i] == votes[i];
    }
  }

  lemma VotesForCodeAppend(votes: seq<Vote>, v: Vote, codeId: Id)
    ensures VotesForCode(votes + [v], codeId) == VotesForCode(votes, codeId) + (if v.votingCodeId == codeId then 1 else 0)
  {
    assert (votes + [v])[..|votes|] == votes;
  }

  lemma VotesForCandidateAppend(votes: seq<Vote>, v: Vote, candidateId: Id)
    ensures VotesForCandidate(votes + [v], candidateId) == VotesForCandidate(votes, candidateId) + (if v.candidateId == candidateId then 1 else 0)
  {
    assert (votes + [v])[..|votes|] == votes;
  }

  /** `findUnique({ where: { code } })`: the id of the code row holding `code`. */
  function FindCode(codes: map<Id, VotingCode>, code: string): (r: Option<Id>)
    requires CodesUnique(codes)
    ensures r.Some? ==> r.value in codes && codes[r.value].code == code
    ensures r.None? ==> forall id :: id in codes ==> codes[id].code != code
  {
    if exists id :: id in codes && codes[id].code == code then
      var id :| id in codes && codes[id].code == code;
      Some(id)
    else
      None
  }

  // ---------------------------------------------------------------------------
  // Invariants

  /** The unique constraint on `VotingCode.code`. */
  ghost predicate CodesUnique(codes: map<Id, VotingCode>) {
    forall a, b :: a in codes && b in codes && codes[a].code == codes[b].code ==> a == b
  }

  /** No two votes reference the same code. */
  ghost predicate OneVotePerCode(votes: seq<Vote>) {
    forall i, j :: 0 <= i < j < |votes| ==> votes[i].votingCodeId != votes[j].votingCodeId
  }

  /** A code is marked used exactly when some vote references it. */
  ghost predicate UsedIffVoted(db: Db) {
    forall id :: id in db.codes ==> (db.codes[id].isUsed <==> VotesForCode(db.votes, id) > 0)
  }

  /** A used code carries the time it was used. */
  ghost predicate UsedHaveTime(db: Db) {
    forall id :: id in db.codes && db.codes[id].isUsed ==> db.codes[id].usedAt.Some?
  }

  /** The foreign keys of Vote: every vote names an existing code and candidate. */
  ghost predicate VotesReferenceRows(db: Db) {
    forall i :: 0 <= i < |db.votes| ==> db.votes[i].votingCodeId in db.codes && db.votes[i].candidateId in db.candidates
  }

  ghost predicate Consistent(db: Db) {
    && CodesUnique(db.codes)
    && OneVotePerCode(db.votes)
    && UsedIffVoted(db)
    && UsedHaveTime(db)
    && VotesReferenceRows(db)
  }

  /** Under one vote per code, "some vote references the code" is "exactly one does". */
  lemma {:induction false} AtMostOneVoteEach(votes: seq<Vote>, codeId: Id)
    requires OneVotePerCode(votes)
    ensures VotesForCode(votes, codeId) <= 1
  {
    if votes != [] {
      var init := votes[..|votes| - 1];
      assert OneVotePerCode(init) by {
        assert forall i :: 0 <= i < |init| ==> init[i] == votes[i];
      }
      AtMostOneVoteEach(init, codeId);
      if votes[|votes| - 1].votingCodeId == codeId {
        VotesForCodeZero(init, codeId);
      }
    }
  }
}
