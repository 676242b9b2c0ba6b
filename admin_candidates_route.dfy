/** GET /api/admin/candidates: every candidate, by name, with the number of
    votes that reference it (src/app/api/admin/candidates/route.ts). The
    handler reads the store and writes nothing. */
module AdminCandidatesRoute {
  import opened Schema
  import opened Text
  import opened Sorting

  /** A candidate row spread with its vote count. */
  datatype Tally = Tally(id: Id, name: string, party: string, description: string, position: string, votes: nat)

  /** `orderBy: { name: 'asc' }`; candidates of the same name by id. */
  predicate NameOrder(candidates: map<Id, Candidate>, a: Id, b: Id) {
    if a in candidates && b in candidates && candidates[a].name != candidates[b].name then
      LexLe(candidates[a].name, candidates[b].name)
    else
      LexLe(a, b)
  }

  lemma NameOrderIsTotal(candidates: map<Id, Candidate>)
    ensures TotalOrderOn(candidates.Keys, (a, b) => NameOrder(candidates, a, b))
  {
    LexLeIsTotalOrder();
  }

  function TallyOf(id: Id, c: Candidate, votes: seq<Vote>): Tally {
    Tally(id, c.name, c.party, c.description, c.position, VotesForCandidate(votes, id))
  }

  /** The candidate ids in list order: each candidate once, by name. */
  function OrderedIds(candidates: map<Id, Candidate>): (ids: seq<Id>)
    ensures |ids| == |candidates|
    ensures forall i :: 0 <= i < |ids| ==> ids[i] in candidates
    ensures forall id :: id in candidates ==> id in ids
    ensures forall i, j :: 0 <= i < j < |ids| ==> ids[i] != ids[j]
    ensures forall i, j :: 0 <= i < j < |ids| ==> LexLe(candidates[ids[i]].name, candidates[ids[j]].name)
  {
    NameOrderIsTotal(candidates);
    var ids := SortBy(candidates.Keys, (a, b) => NameOrder(candidates, a, b));
    forall i, j | 0 <= i < j < |ids| ensures LexLe(candidates[ids[i]].name, candidates[ids[j]].name) {
      assert NameOrder(candidates, ids[i], ids[j]);
      LexLeReflexive(candidates[ids[i]].name);
    }
    ids
  }

  /** `candidates.map(c => ({ ...c, votes: c._count.votes }))` over the ids in order. */
  function Tallies(ids: seq<Id>, candidates: map<Id, Candidate>, votes: seq<Vote>): (r: seq<Tally>)
    requires forall i :: 0 <= i < |ids| ==> ids[i] in candidates
    ensures |r| == |ids|
    ensures forall i :: 0 <= i < |r| ==> r[i] == TallyOf(ids[i], candidates[ids[i]], votes)
  {
    if ids == [] then [] else Tallies(ids[..|ids| - 1], candidates, votes) + [TallyOf(ids[|ids| - 1], candidates[ids[|ids| - 1]], votes)]
  }

  /** The handler. */
  function ListCandidates(db: Db): (r: seq<Tally>)
    ensures |r| == |db.candidates|
  {
    Tallies(OrderedIds(db.candidates), db.candidates, db.votes)
  }

  /** Every stored candidate is listed exactly once, and the list is by name. */
  lemma ListCandidatesOrdered(db: Db)
    ensures var r := ListCandidates(db);
      && (forall i :: 0 <= i < |r| ==> r[i].id in db.candidates)
      && (forall id :: id in db.candidates ==> exists i :: 0 <= i < |r| && r[i].id == id)
      && (forall i, j :: 0 <= i < j < |r| ==> r[i].id != r[j].id)
      && (forall i, j :: 0 <= i < j < |r| ==> LexLe(r[i].name, r[j].name))
  {
    var ids := OrderedIds(db.candidates);
    var r := ListCandidates(db);
    forall id | id in db.candidates ensures exists i :: 0 <= i < |r| && r[i].id == id {
      var i :| 0 <= i < |ids| && ids[i] == id;
      assert r[i].id == id;
    }
    forall i, j | 0 <= i < j < |r| ensures r[i].id != r[j].id && LexLe(r[i].name, r[j].name) {
      assert r[i].id == ids[i] && r[j].id == ids[j];
    }
  }

  /** Each entry carries its candidate's own fields and the number of votes naming it. */
  lemma ListCandidatesCounts(db: Db)
    ensures var r := ListCandidates(db);
      forall i :: 0 <= i < |r| ==>
        && r[i].id in db.candidates
        && var c := db.candidates[r[i].id];
        && r[i].name == c.name && r[i].party == c.party
        && r[i].description == c.description && r[i].position == c.position
        && r[i].votes == VotesForCandidate(db.votes, r[i].id)
  {
  }

  // ---------------------------------------------------------------------------
  // The tallies add up to the ballots cast

  function TotalVotes(r: seq<Tally>): nat {
    if r == [] then 0 else TotalVotes(r[..|r| - 1]) + r[|r| - 1].votes
  }

  /** The votes of the candidates `ids`, added up. */
  function SumFor(ids: seq<Id>, votes: seq<Vote>): nat {
    if ids == [] then 0 else SumFor(ids[..|ids| - 1], votes) + VotesForCandidate(votes, ids[|ids| - 1])
  }

  /** How often `id` occurs in `ids`. */
  function Occurrences(ids: seq<Id>, id: Id): nat {
    if ids == [] then 0 else Occurrences(ids[..|ids| - 1], id) + (if ids[|ids| - 1] == id then 1 else 0)
  }

  lemma {:induction false} OccursOnce(ids: seq<Id>, id: Id)
    requires forall i, j :: 0 <= i < j < |ids| ==> ids[i] != ids[j]
    ensures Occurrences(ids, id) == if id in ids then 1 else 0
  {
    if ids != [] {
      var init := ids[..|ids| - 1];
      OccursOnce(init, id);
      assert ids == init + [ids[|ids| - 1]];
      if ids[|ids| - 1] == id {
        assert id !in init;
      }
    }
  }

  /** One more vote adds one to the sum for each time its candidate is listed. */
  lemma {:induction false} SumForAppend(ids: seq<Id>, votes: seq<Vote>, v: Vote)
    ensures SumFor(ids, votes + [v]) == SumFor(ids, votes) + Occurrences(ids, v.candidateId)
  {
    if ids != [] {
      SumForAppend(ids[..|ids| - 1], votes, v);
      VotesForCandidateAppend(votes, v, ids[|ids| - 1]);
    }
  }

  /** Over a list of distinct candidates that every vote names, the counts add
      up to the number of votes. */
  lemma {:induction false} SumForCoversVotes(ids: seq<Id>, votes: seq<Vote>)
    requires forall i, j :: 0 <= i < j < |ids| ==> ids[i] != ids[j]
    requires forall k :: 0 <= k < |votes| ==> votes[k].candidateId in ids
    ensures SumFor(ids, votes) == |votes|
  {
    if votes == [] {
      SumForNoVotes(ids);
    } else {
      var init, v := votes[..|votes| - 1], votes[|votes| - 1];
      SumForCoversVotes(ids, init);
      assert votes == init + [v];
      SumForAppend(ids, init, v);
      OccursOnce(ids, v.candidateId);
    }
  }

  lemma {:induction false} SumForNoVotes(ids: seq<Id>)
    ensures SumFor(ids, []) == 0
  {
    if ids != [] { SumForNoVotes(ids[..|ids| - 1]); }
  }

  lemma {:induction false} TotalIsSumFor(ids: seq<Id>, candidates: map<Id, Candidate>, votes: seq<Vote>)
    requires forall i :: 0 <= i < |ids| ==> ids[i] in candidates
    ensures TotalVotes(Tallies(ids, candidates, votes)) == SumFor(ids, votes)
  {
    if ids != [] {
      var init := ids[..|ids| - 1];
      TotalIsSumFor(init, candidates, votes);
      assert Tallies(ids, candidates, votes)[..|ids| - 1] == Tallies(init, candidates, votes);
    }
  }

  /** When every vote names an existing candidate, the `votes` of the list add
      up to the number of votes cast. */
  lemma TalliesAddUpToVotes(db: Db)
    requires forall k :: 0 <= k < |db.votes| ==> db.votes[k].candidateId in db.candidates
    ensures TotalVotes(ListCandidates(db)) == |db.votes|
  {
    var ids := OrderedIds(db.candidates);
    TotalIsSumFor(ids, db.candidates, db.votes);
    SumForCoversVotes(ids, db.votes);
  }
}
