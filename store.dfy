/** The store as the handlers see it: four tables that the POST handlers
    update in place. Each method runs one request; its reply and the new
    contents of the tables are those of the route's function over the tables
    as they were. */
module Store {
  import opened Schema
  import opened Text
  import VoteRoute
  import VotingCodeRoute
  import RegisterRoute

  class ElectionStore {
    var codes: map<Id, VotingCode>
    var candidates: map<Id, Candidate>
    var votes: seq<Vote>
    var users: map<string, User>

    function Snapshot(): Db
      reads this
    {
      Db(codes, candidates, votes, users)
    }

    ghost predicate Valid()
      reads this
    {
      Consistent(Snapshot())
    }

    /** A provisioned store: every code unused and no vote cast yet. */
    constructor (provisioned: map<Id, VotingCode>, ballot: map<Id, Candidate>, accounts: map<string, User>)
      requires CodesUnique(provisioned)
      requires forall id :: id in provisioned ==> !provisioned[id].isUsed
      ensures Snapshot() == Db(provisioned, ballot, [], accounts)
      ensures Valid()
    {
      codes, candidates, votes, users := provisioned, ballot, [], accounts;
    }

    /** POST /api/vote. The guards return early; the vote row and the code's
        `isUsed`/`usedAt` are written in one assignment, as the transaction
        writes both or neither. */
    method CastVote(votingCodeId: Option<Id>, candidateId: Option<Id>, now: nat) returns (reply: Reply<VoteRoute.Receipt>)
      modifies this`codes, this`votes
      ensures var s := VoteRoute.Commit(old(Snapshot()), votingCodeId, candidateId, now);
        Snapshot() == s.db && reply == s.reply
      ensures old(Valid()) ==> Valid()
    {
      ghost var before := Snapshot();
      if !Present(votingCodeId) || !Present(candidateId) {
        return Error(400, VoteRoute.FieldsRequired);
      }
      var codeId := votingCodeId.value;
      if codeId !in codes {
        return Error(404, VoteRoute.InvalidSession);
      }
      var code := codes[codeId];
      if code.isUsed || VotesForCode(votes, codeId) > 0 {
        return Error(400, VoteRoute.AlreadyUsed);
      }
      var candidate := candidateId.value;
      if candidate !in candidates {
        return Error(404, VoteRoute.InvalidCandidate);
      }
      votes, codes := votes + [Vote(codeId, candidate)], codes[codeId := code.(isUsed := true, usedAt := Some(now))];
      reply := Ok(VoteRoute.Receipt(VoteRoute.VoteCast, code.voterName));
      if Consistent(before) {
        VoteRoute.CommitKeepsConsistent(before, votingCodeId, candidateId, now);
      }
    }

    /** POST /api/auth/voting-code. Looks the code up by its upper-cased
        spelling and overwrites that row's `voterName`. */
    method RedeemCode(code: Option<string>, voterName: Option<string>) returns (reply: Reply<VotingCodeRoute.Session>)
      requires CodesUnique(codes)
      modifies this`codes
      ensures var s := VotingCodeRoute.Redeem(old(Snapshot()), code, voterName);
        Snapshot() == s.db && reply == s.reply
      ensures CodesUnique(codes)
      ensures old(Valid()) ==> Valid()
    {
      ghost var before := Snapshot();
      if !Present(code) || !Present(voterName) {
        return Error(400, VotingCodeRoute.Required);
      }
      var found := FindCode(codes, ToUpper(code.value));
      if found.None? {
        return Error(401, VotingCodeRoute.InvalidCode);
      }
      var codeId := found.value;
      if codes[codeId].isUsed {
        return Error(401, VotingCodeRoute.AlreadyUsed);
      }
      var name := Trim(voterName.value);
      codes := codes[codeId := codes[codeId].(voterName := Some(name))];
      reply := Ok(VotingCodeRoute.Session(codeId, name, VotingCodeRoute.Authenticated));
      VotingCodeRoute.RenameKeepsCodes(before, codeId, name);
      if Consistent(before) {
        VotingCodeRoute.RedeemKeepsConsistent(before, code, voterName);
      }
    }

    /** POST /api/auth/register. `hash` is bcrypt's hash; `newId` the id the
        database gives the new row. */
    method Register(email: string, password: string, name: string, confirmPassword: string,
                    hash: string -> string, newId: Id) returns (reply: Reply<PublicUser>)
      modifies this`users
      ensures var s := RegisterRoute.Register(old(Snapshot()), email, password, name, confirmPassword, hash, newId);
        Snapshot() == s.db && reply == s.reply
      ensures old(Valid()) ==> Valid()
    {
      if password != confirmPassword {
        return Error(400, RegisterRoute.PasswordsDiffer);
      }
      if email in users {
        return Error(400, RegisterRoute.UserExists);
      }
      var user := User(newId, name, hash(password), VOTER);
      users := users[email := user];
      reply := Ok(Hide(email, user));
    }
  }
}
