/** POST /api/auth/voting-code: exchanging a voting code for a voting session,
    staging the voter's name on the code (src/app/api/auth/voting-code/route.ts). */
module VotingCodeRoute {
  import opened Schema
  import opened Text

  const Required := "Voting code and name are required"
  const InvalidCode := "Invalid voting code"
  const AlreadyUsed := "This voting code has already been used"
  const Authenticated := "Authentication successful"

  /** The success body. */
  datatype Session = Session(votingCodeId: Id, voterName: string, message: string)

  /** The handler. The code is upper-cased but not trimmed; the name is trimmed. */
  function Redeem(db: Db, code: Option<string>, voterName: Option<string>): (s: Step<Session>)
    requires CodesUnique(db.codes)
    ensures s.reply == Error(400, Required) <==> !Present(code) || !Present(voterName)
    ensures s.reply == Error(401, InvalidCode) <==>
      && Present(code) && Present(voterName)
      && forall id :: id in db.codes ==> db.codes[id].code != ToUpper(code.value)
    ensures s.reply == Error(401, AlreadyUsed) <==>
      && Present(code) && Present(voterName)
      && exists id :: id in db.codes && db.codes[id].code == ToUpper(code.value) && db.codes[id].isUsed
    ensures s.reply.Error? ==> s.db == db
    ensures s.reply.Ok? ==>
      var id := s.reply.body.votingCodeId;
      && Present(code) && Present(voterName)
      && id in db.codes && db.codes[id].code == ToUpper(code.value) && !db.codes[id].isUsed
      && s.reply.body == Session(id, Trim(voterName.value), Authenticated)
      // only the name of that code changes; it stays unused
      && s.db == db.(codes := db.codes[id := db.codes[id].(voterName := Some(Trim(voterName.value)))])
  {
    if !Present(code) || !Present(voterName) then
      Step(db, Error(400, Required))
    else
      match FindCode(db.codes, ToUpper(code.value))
      case None =>
        Step(db, Error(401, InvalidCode))
      case Some(id) =>
        if db.codes[id].isUsed then
          Step(db, Error(401, AlreadyUsed))
        else
          var name := Trim(voterName.value);
          Step(db.(codes := db.codes[id := db.codes[id].(voterName := Some(name))]), Ok(Session(id, name, Authenticated)))
  }

  lemma FindCodeDetermined(codes: map<Id, VotingCode>, id: Id, code: string)
    requires CodesUnique(codes) && id in codes && codes[id].code == code
    ensures FindCode(codes, code) == Some(id)
  {
  }

  /** Renaming a code leaves the set of codes and their spellings as they were. */
  lemma RenameKeepsCodes(db: Db, id: Id, name: string)
    requires CodesUnique(db.codes) && id in db.codes
    ensures var codes := db.codes[id := db.codes[id].(voterName := Some(name))];
      && CodesUnique(codes)
      && forall k :: k in db.codes ==> k in codes && codes[k].code == db.codes[k].code && codes[k].isUsed == db.codes[k].isUsed
  {
    var codes := db.codes[id := db.codes[id].(voterName := Some(name))];
    forall a, b | a in codes && b in codes && codes[a].code == codes[b].code
      ensures a == b
    {
      assert db.codes[a].code == db.codes[b].code;
    }
  }

  /** Redeeming again before voting succeeds and only replaces the staged name:
      it ends in the same store and reply as redeeming with the second name alone. */
  lemma RedeemAgainReplacesName(db: Db, code: Option<string>, firstName: Option<string>, secondName: Option<string>)
    requires CodesUnique(db.codes)
    requires Redeem(db, code, firstName).reply.Ok?
    requires Present(secondName)
    ensures CodesUnique(Redeem(db, code, firstName).db.codes)
    ensures Redeem(Redeem(db, code, firstName).db, code, secondName) == Redeem(db, code, secondName)
  {
    var first := Redeem(db, code, firstName);
    var id := first.reply.body.votingCodeId;
    RenameKeepsCodes(db, id, Trim(firstName.value));
    FindCodeDetermined(db.codes, id, ToUpper(code.value));
    FindCodeDetermined(first.db.codes, id, ToUpper(code.value));
  }

  /** Redeeming twice with the same name is redeeming once. */
  lemma RedeemIdempotent(db: Db, code: Option<string>, voterName: Option<string>)
    requires CodesUnique(db.codes)
    requires Redeem(db, code, voterName).reply.Ok?
    ensures CodesUnique(Redeem(db, code, voterName).db.codes)
    ensures Redeem(Redeem(db, code, voterName).db, code, voterName) == Redeem(db, code, voterName)
  {
    RedeemAgainReplacesName(db, code, voterName, voterName);
  }

  /** The lookup ignores the case of what the voter typed: any spelling that
      upper-cases to the stored code finds that code. */
  lemma RedeemFindsAnyCase(db: Db, id: Id, typed: string, voterName: string)
    requires CodesUnique(db.codes) && id in db.codes
    requires typed != "" && voterName != ""
    requires ToUpper(typed) == db.codes[id].code
    ensures var s := Redeem(db, Some(typed), Some(voterName));
      if db.codes[id].isUsed then s.reply == Error(401, AlreadyUsed)
      else s.reply == Ok(Session(id, Trim(voterName), Authenticated))
  {
    FindCodeDetermined(db.codes, id, ToUpper(typed));
  }

  /** In particular a stored upper-case code is found from its lower-case spelling. */
  lemma RedeemFindsLowerCase(db: Db, id: Id, voterName: string)
    requires CodesUnique(db.codes) && id in db.codes
    requires db.codes[id].code != "" && IsUpperCase(db.codes[id].code) && voterName != ""
    ensures var s := Redeem(db, Some(ToLower(db.codes[id].code)), Some(voterName));
      if db.codes[id].isUsed then s.reply == Error(401, AlreadyUsed)
      else s.reply == Ok(Session(id, Trim(voterName), Authenticated))
  {
    var code := db.codes[id].code;
    ToUpperIgnoresCase(code);
    ToUpperNormalizes(code);
    RedeemFindsAnyCase(db, id, ToLower(code), voterName);
  }

  /** Only `isUsed` is consulted: the votes attached to the code play no part,
      so the reply does not depend on the Vote table. */
  lemma RedeemIgnoresVotes(db: Db, votes: seq<Vote>, code: Option<string>, voterName: Option<string>)
    requires CodesUnique(db.codes)
    ensures var s := Redeem(db, code, voterName);
      Redeem(db.(votes := votes), code, voterName) == Step(s.db.(votes := votes), s.reply)
  {
  }

  lemma RedeemKeepsConsistent(db: Db, code: Option<string>, voterName: Option<string>)
    requires Consistent(db)
    ensures Consistent(Redeem(db, code, voterName).db)
  {
    var s := Redeem(db, code, voterName);
    if s.reply.Ok? {
      RenameKeepsCodes(db, s.reply.body.votingCodeId, Trim(voterName.value));
    }
  }
}
