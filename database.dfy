/**
 * The `Match` and `Admin` tables (database.js) and the constraints the store
 * itself enforces: not-null columns, the unique slug, the unique admin
 * username and the column defaults. `sync()` and the SQLite file are left out.
 *
 * database.js declares fewer columns than the controllers use: `home_logo`,
 * `away_logo`, `odds`, `views` and `bet_status` are written by
 * controllers/adminController.js and read by controllers/matchController.js,
 * yet the Match definition at database.js:12-35 does not list them. The record
 * below carries the field set the controllers use. The `head_to_head` column is
 * declared but never written, so it is not part of the record.
 */
module Database {
  import opened Wrappers

  /** `status`: only `upcoming` and `finished` are ever written; `live` is a legal value nothing sets. */
  datatype Status = Upcoming | Live | Finished

  datatype BetStatus = Pending | Won | Lost | Void | Push

  /** A stored row. Required columns are plain strings, so a stored row can never hold null there. */
  datatype Match = Match(
    id: nat,
    league: string,
    home_team: string,
    away_team: string,
    match_date: int,            // milliseconds since the epoch
    home_logo: Option<string>,
    away_logo: Option<string>,
    home_form: Option<string>,
    away_form: Option<string>,
    analysis: Option<string>,
    prediction: string,
    confidence: Option<int>,    // an INTEGER column with no range constraint; None is null
    slug: string,
    affiliate_link: Option<string>,
    odds: Option<string>,
    status: Status,
    result_score: Option<string>, // free text at the store level, null until a result is recorded
    bet_status: BetStatus,
    views: nat)

  /** The values handed to `Match.create`; `None` is `undefined` or `null`. */
  datatype Draft = Draft(
    league: Option<string>,
    home_team: Option<string>,
    away_team: Option<string>,
    match_date: int,
    home_logo: Option<string>,
    away_logo: Option<string>,
    home_form: Option<string>,
    away_form: Option<string>,
    analysis: Option<string>,
    prediction: Option<string>,
    confidence: Option<int>,
    slug: string,
    affiliate_link: Option<string>,
    odds: Option<string>,
    status: Option<Status>,
    views: nat)

  datatype DbError = NotNullViolation(columns: seq<string>) | UniqueViolation(column: string)

  /** The `allowNull: false` columns that `d` leaves null, in declaration order. */
  function NullColumns(d: Draft): (r: seq<string>)
    ensures r == [] <==> d.league.Some? && d.home_team.Some? && d.away_team.Some? && d.prediction.Some?
    ensures |r| <= 4
  {
    (if d.league.None? then ["league"] else [])
    + (if d.home_team.None? then ["home_team"] else [])
    + (if d.away_team.None? then ["away_team"] else [])
    + (if d.prediction.None? then ["prediction"] else [])
  }

  predicate SlugTaken(rows: map<nat, Match>, slug: string) {
    exists k :: k in rows && rows[k].slug == slug
  }

  /**
   * What `Match.create(d)` does when the next id is `id`: the not-null check runs
   * before the insert, the unique index on `slug` rejects a duplicate, and the
   * column defaults fill what `d` leaves out (`status` 'upcoming', `bet_status`
   * 'pending', no result yet).
   */
  function CheckInsert(rows: map<nat, Match>, id: nat, d: Draft): (r: Result<Match, DbError>)
    ensures r.Success? <==> NullColumns(d) == [] && !SlugTaken(rows, d.slug)
    ensures NullColumns(d) != [] ==> r == Failure(NotNullViolation(NullColumns(d)))
    ensures NullColumns(d) == [] && SlugTaken(rows, d.slug) ==> r == Failure(UniqueViolation("slug"))
    ensures r.Success? ==> r.value.id == id && r.value.slug == d.slug
    ensures r.Success? ==> r.value.status == (if d.status.Some? then d.status.value else Upcoming)
  {
    if NullColumns(d) != [] then Failure(NotNullViolation(NullColumns(d)))
    else if SlugTaken(rows, d.slug) then Failure(UniqueViolation("slug"))
    else
      Success(Match(
        id, d.league.value, d.home_team.value, d.away_team.value, d.match_date,
        d.home_logo, d.away_logo, d.home_form, d.away_form, d.analysis,
        d.prediction.value, d.confidence, d.slug, d.affiliate_link, d.odds,
        if d.status.Some? then d.status.value else Upcoming, None, Pending, d.views))
  }

  /** The stored row holds the draft's values, and the column defaults where the draft has none. */
  lemma CheckInsertStores(rows: map<nat, Match>, id: nat, d: Draft)
    requires CheckInsert(rows, id, d).Success?
    ensures var m := CheckInsert(rows, id, d).value;
      && m.views == d.views && m.match_date == d.match_date
      && Some(m.league) == d.league && Some(m.home_team) == d.home_team
      && Some(m.away_team) == d.away_team && Some(m.prediction) == d.prediction
      && m.home_logo == d.home_logo && m.away_logo == d.away_logo
      && m.home_form == d.home_form && m.away_form == d.away_form
      && m.analysis == d.analysis && m.confidence == d.confidence
      && m.affiliate_link == d.affiliate_link && m.odds == d.odds
      && m.result_score.None? && m.bet_status == Pending
  {
  }

  /** Every row is stored under its own id, below the next id the table hands out. */
  ghost predicate Keyed(rows: map<nat, Match>, nextId: nat) {
    forall k :: k in rows ==> rows[k].id == k && k < nextId
  }

  /** The unique index on `slug`. */
  ghost predicate SlugsUnique(rows: map<nat, Match>) {
    forall j, k :: j in rows && k in rows && j != k ==> rows[j].slug != rows[k].slug
  }

  /** A successful insert keeps both store invariants and adds exactly one row. */
  lemma InsertKeepsInvariants(rows: map<nat, Match>, nextId: nat, d: Draft)
    requires Keyed(rows, nextId) && SlugsUnique(rows)
    requires CheckInsert(rows, nextId, d).Success?
    ensures var rows' := rows[nextId := CheckInsert(rows, nextId, d).value];
      Keyed(rows', nextId + 1) && SlugsUnique(rows') && |rows'| == |rows| + 1
  {
    assert nextId !in rows;
  }

  /** `Match.findOne({ where: { slug } })`; the unique index makes the row unambiguous. */
  function FindBySlug(rows: map<nat, Match>, slug: string): (r: Option<Match>)
    requires SlugsUnique(rows)
    ensures r.Some? <==> SlugTaken(rows, slug)
    ensures r.Some? ==> r.value.slug == slug && r.value in rows.Values
  {
    if SlugTaken(rows, slug) then
      var k :| k in rows && rows[k].slug == slug;
      Some(rows[k])
    else None
  }

  /** A row after one more view: only the counter changes. */
  function Viewed(m: Match): (r: Match)
    ensures r.views == m.views + 1 && r.(views := m.views) == m
  {
    m.(views := m.views + 1)
  }

  /** The Match table: rows by id, and the SQLite autoincrement counter. */
  class MatchTable {
    var rows: map<nat, Match>
    var nextId: nat

    ghost predicate Valid()
      reads this
    {
      Keyed(rows, nextId) && SlugsUnique(rows)
    }

    constructor ()
      ensures Valid() && rows == map[] && nextId == 1
    {
      rows := map[];
      nextId := 1;
    }

    /** `Match.create(d)`: a failed create leaves the table and the counter as they were. */
    method Create(d: Draft) returns (r: Result<Match, DbError>)
      requires Valid()
      modifies this
      ensures Valid()
      ensures r == CheckInsert(old(rows), old(nextId), d)
      ensures r.Success? ==> rows == old(rows)[old(nextId) := r.value] && nextId == old(nextId) + 1
      ensures r.Success? ==> |rows| == |old(rows)| + 1
      ensures r.Failure? ==> rows == old(rows) && nextId == old(nextId)
    {
      r := CheckInsert(rows, nextId, d);
      if r.Success? {
        InsertKeepsInvariants(rows, nextId, d);
        rows := rows[nextId := r.value];
        nextId := nextId + 1;
      }
    }

    /** `instance.update(...)`: writes back a row that keeps its id and its slug. */
    method Save(m: Match)
      requires Valid() && m.id in rows && rows[m.id].slug == m.slug
      modifies this
      ensures Valid()
      ensures rows == old(rows)[m.id := m] && nextId == old(nextId)
    {
      rows := rows[m.id := m];
    }

    /** `instance.destroy()`. */
    method Destroy(id: nat)
      requires Valid() && id in rows
      modifies this
      ensures Valid()
      ensures rows == old(rows) - {id} && nextId == old(nextId)
      ensures |rows| == |old(rows)| - 1
    {
      rows := rows - {id};
    }

    /** `instance.increment('views')`: the row's view count goes up by one. */
    method IncrementViews(id: nat)
      requires Valid() && id in rows
      modifies this
      ensures Valid()
      ensures rows == old(rows)[id := Viewed(old(rows)[id])]
      ensures nextId == old(nextId)
    {
      rows := rows[id := Viewed(rows[id])];
    }
  }

  /** An Admin row. SQLite's unique index admits any number of null usernames. */
  datatype Admin = Admin(username: Option<string>, password: Option<string>)

  ghost predicate UsernamesUnique(admins: seq<Admin>) {
    forall i, j :: 0 <= i < j < |admins| && admins[i].username.Some? ==> admins[i].username != admins[j].username
  }

  /** Inserting an Admin row: the unique index on `username` rejects a taken name. */
  function AddAdmin(admins: seq<Admin>, a: Admin): (r: Result<seq<Admin>, DbError>)
    ensures r.Failure? <==> a.username.Some? && exists i :: 0 <= i < |admins| && admins[i].username == a.username
    ensures r.Success? ==> r.value == admins + [a]
  {
    if a.username.Some? && exists i :: 0 <= i < |admins| && admins[i].username == a.username then
      Failure(UniqueViolation("username"))
    else
      Success(admins + [a])
  }

  /** The unique index holds after every successful insert. */
  lemma AddAdminKeepsUnique(admins: seq<Admin>, a: Admin)
    requires UsernamesUnique(admins)
    requires AddAdmin(admins, a).Success?
    ensures UsernamesUnique(AddAdmin(admins, a).value)
  {
    var r := AddAdmin(admins, a).value;
    forall i, j | 0 <= i < j < |r| && r[i].username.Some?
      ensures r[i].username != r[j].username
    {
      if j == |admins| {
        assert r[j] == a && r[i] == admins[i];
      }
    }
  }
}
