/** GET /api/admin/users: code statistics and the most recent votes
    (src/app/api/admin/users/route.ts). The handler reads the store and writes
    nothing. */
module AdminUsersRoute {
  import opened Schema
  import opened Text
  import opened Sorting

  /** `take: 20`. */
  const RecentLimit := 20

  /** `participationRate`: the literal '0' when there are no codes; otherwise
      `((usedCodes / totalCodes) * 100).toFixed(1)`, kept here as the fraction
      it formats. */
  datatype Rate = Literal(text: string) | Percentage(usedCodes: nat, totalCodes: nat)

  datatype Statistics = Statistics(totalCodes: nat, usedCodes: nat, availableCodes: int, participationRate: Rate)

  /** `votes: { select: { candidate: { select: { name, party } } } }`. */
  datatype Ballot = Ballot(name: string, party: string)

  /** One row of `recentActivity`. */
  datatype Activity = Activity(id: Id, code: string, voterName: Option<string>, usedAt: Option<nat>, votes: seq<Ballot>)

  datatype Report = Report(statistics: Statistics, recentActivity: seq<Activity>)

  /** `where: { isUsed: true }`. */
  function UsedIds(codes: map<Id, VotingCode>): set<Id> {
    set id | id in codes && codes[id].isUsed
  }

  lemma {:induction false} SubsetSmaller<T>(a: set<T>, b: set<T>)
    requires a <= b
    ensures |a| <= |b|
    decreases |b|
  {
    if a != {} {
      var x :| x in a;
      SubsetSmaller(a - {x}, b - {x});
    }
  }

  function CodeStatistics(db: Db): (s: Statistics)
    ensures s.totalCodes == |db.codes|
    ensures s.usedCodes == |UsedIds(db.codes)| && s.usedCodes <= s.totalCodes
    ensures s.availableCodes >= 0 && s.usedCodes + s.availableCodes == s.totalCodes
    ensures s.participationRate == Literal("0") <==> s.totalCodes == 0
    ensures s.totalCodes > 0 ==> s.participationRate == Percentage(s.usedCodes, s.totalCodes)
  {
    var total := |db.codes|;
    var used := |UsedIds(db.codes)|;
    SubsetSmaller(UsedIds(db.codes), db.codes.Keys);
    assert |db.codes.Keys| == |db.codes|;
    Statistics(total, used, total - used, if total > 0 then Percentage(used, total) else Literal("0"))
  }

  // ---------------------------------------------------------------------------
  // Recent activity

  /** `usedAt` as a sort key; a missing time sorts as the oldest. */
  function Recency(c: VotingCode): int {
    match c.usedAt
    case Some(t) => t
    case None => -1
  }

  /** `orderBy: { usedAt: 'desc' }`; codes used at the same time by id. */
  predicate RecentFirst(codes: map<Id, VotingCode>, a: Id, b: Id) {
    if a in codes && b in codes && Recency(codes[a]) != Recency(codes[b]) then
      Recency(codes[a]) > Recency(codes[b])
    else
      LexLe(a, b)
  }

  lemma RecentFirstIsTotal(codes: map<Id, VotingCode>, s: set<Id>)
    requires s <= codes.Keys
    ensures TotalOrderOn(s, (a, b) => RecentFirst(codes, a, b))
  {
    LexLeIsTotalOrder();
  }

  /** The used codes, most recently used first. */
  function OrderedUsed(codes: map<Id, VotingCode>): (ids: seq<Id>)
    ensures |ids| == |UsedIds(codes)|
    ensures forall i :: 0 <= i < |ids| ==> ids[i] in codes && codes[ids[i]].isUsed
    ensures forall id :: id in codes && codes[id].isUsed ==> id in ids
    ensures forall i, j :: 0 <= i < j < |ids| ==> ids[i] != ids[j]
    ensures forall i, j :: 0 <= i < j < |ids| ==> Recency(codes[ids[i]]) >= Recency(codes[ids[j]])
  {
    var used := UsedIds(codes);
    RecentFirstIsTotal(codes, used);
    var ids := SortBy(used, (a, b) => RecentFirst(codes, a, b));
    forall i, j | 0 <= i < j < |ids| ensures Recency(codes[ids[i]]) >= Recency(codes[ids[j]]) {
      assert RecentFirst(codes, ids[i], ids[j]);
    }
    ids
  }

  /** The candidates of the votes that reference code `id`, in vote order. */
  function BallotsOf(votes: seq<Vote>, candidates: map<Id, Candidate>, id: Id): (b: seq<Ballot>)
    ensures |b| <= VotesForCode(votes, id)
  {
    if votes == [] then []
    else
      var v := votes[|votes| - 1];
      var earlier := BallotsOf(votes[..|votes| - 1], candidates, id);
      if v.votingCodeId == id && v.candidateId in candidates then
        earlier + [Ballot(candidates[v.candidateId].name, candidates[v.candidateId].party)]
      else
        earlier
  }

  function ActivityOf(db: Db, id: Id): Activity
    requires id in db.codes
  {
    var c := db.codes[id];
    Activity(id, c.code, c.voterName, c.usedAt, BallotsOf(db.votes, db.candidates, id))
  }

  function Activities(db: Db, ids: seq<Id>): (r: seq<Activity>)
    requires forall i :: 0 <= i < |ids| ==> ids[i] in db.codes
    ensures |r| == |ids|
    ensures forall i :: 0 <= i < |r| ==> r[i] == ActivityOf(db, ids[i])
  {
    if ids == [] then [] else Activities(db, ids[..|ids| - 1]) + [ActivityOf(db, ids[|ids| - 1])]
  }

  function Min(a: nat, b: nat): nat { if a <= b then a else b }

  function RecentActivity(db: Db): (r: seq<Activity>)
    ensures |r| == Min(RecentLimit, |UsedIds(db.codes)|)
  {
    var ids := OrderedUsed(db.codes);
    Activities(db, ids[..Min(RecentLimit, |ids|)])
  }

  /** The handler. */
  function UsersReport(db: Db): (r: Report)
    ensures r.statistics.totalCodes == |db.codes| && r.statistics.usedCodes == |UsedIds(db.codes)|
    ensures r.statistics.usedCodes + r.statistics.availableCodes == r.statistics.totalCodes
    ensures r.statistics.availableCodes >= 0
    ensures |r.recentActivity| <= RecentLimit
    ensures forall i :: 0 <= i < |r.recentActivity| ==>
      r.recentActivity[i].id in db.codes && db.codes[r.recentActivity[i].id].isUsed
    ensures forall i, j :: 0 <= i < j < |r.recentActivity| ==>
      Recency(db.codes[r.recentActivity[i].id]) >= Recency(db.codes[r.recentActivity[j].id])
  {
    RecentActivityListsUsed(db);
    Report(CodeStatistics(db), RecentActivity(db))
  }

  /** The codes listed in an activity list. */
  function ListedIds(r: seq<Activity>): set<Id> {
    set i | 0 <= i < |r| :: r[i].id
  }

  /** What `recentActivity` holds: at most 20 distinct used codes, each with
      its own fields, most recently used first. */
  lemma RecentActivityListsUsed(db: Db)
    ensures var r := RecentActivity(db);
      && |r| <= RecentLimit
      && (forall i :: 0 <= i < |r| ==> r[i].id in db.codes && db.codes[r[i].id].isUsed && r[i] == ActivityOf(db, r[i].id))
      && (forall i, j :: 0 <= i < j < |r| ==> r[i].id != r[j].id)
      && (forall i, j :: 0 <= i < j < |r| ==> Recency(db.codes[r[i].id]) >= Recency(db.codes[r[j].id]))
  {
    var ids := OrderedUsed(db.codes);
    var r := RecentActivity(db);
    forall i, j | 0 <= i < j < |r|
      ensures r[i].id != r[j].id && Recency(db.codes[r[i].id]) >= Recency(db.codes[r[j].id])
    {
      assert r[i].id == ids[i] && r[j].id == ids[j];
    }
  }

  /** The listed codes are the first of the ordered used codes. */
  lemma RecentActivityIds(db: Db)
    ensures var ids := OrderedUsed(db.codes); var r := RecentActivity(db);
      && |r| == Min(RecentLimit, |ids|)
      && (forall k :: 0 <= k < |r| ==> r[k].id == ids[k])
      && (forall k :: 0 <= k < |r| ==> r[k].id in ListedIds(r))
  {
  }

  /** When at most 20 codes are used, all of them are listed. */
  lemma RecentActivityAllWhenFew(db: Db)
    requires |UsedIds(db.codes)| <= RecentLimit
    ensures ListedIds(RecentActivity(db)) == UsedIds(db.codes)
  {
    var ids := OrderedUsed(db.codes);
    var r := RecentActivity(db);
    RecentActivityIds(db);
    assert |r| == |ids|;
    forall id | id in UsedIds(db.codes) ensures id in ListedIds(r) {
      var p :| 0 <= p < |ids| && ids[p] == id;
      assert r[p].id == id;
    }
  }

  /** The 20 are the latest: no used code left off the list was used later
      than any code on it. */
  lemma RecentActivityIsLatest(db: Db)
    ensures var r := RecentActivity(db);
      forall id, i :: id in UsedIds(db.codes) && id !in ListedIds(r) && 0 <= i < |r| ==>
        Recency(db.codes[id]) <= Recency(db.codes[r[i].id])
  {
    var ids := OrderedUsed(db.codes);
    var r := RecentActivity(db);
    RecentActivityIds(db);
    forall id, i | id in UsedIds(db.codes) && id !in ListedIds(r) && 0 <= i < |r|
      ensures Recency(db.codes[id]) <= Recency(db.codes[r[i].id])
    {
      var p :| 0 <= p < |ids| && ids[p] == id;
      assert i < |r| <= p;
    }
  }
}
