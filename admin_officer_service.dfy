/**
  * Officer administration (backend/src/admin/admin-officer.service.ts): the filtered,
  * paginated officer list, the detail lookup, status and profile updates that log
  * their changes to officer_history, and deletion with its cascade.
  */
module AdminOfficerService {
  import opened Wrappers
  import opened Entities
  import opened Queries
  import opened Store

  const OFFICER_NOT_FOUND_MSG: string := "Officer not found"
  const STATUS_UPDATED_MSG: string := "Trạng thái tài khoản đã được cập nhật thành công"
  const STATUS_NOTE: string := "Cập nhật trạng thái công tác bởi Admin"
  const UPDATED_MSG: string := "Thông tin cán bộ đã được cập nhật thành công"
  const UNIT_NOTE: string := "Cập nhật đơn vị công tác bởi Admin"
  const REMOVED_MSG: string := "Cán bộ đã được xóa khỏi hệ thống"

  const DEFAULT_PAGE: int := 1
  const DEFAULT_LIMIT: int := 10

  // ----- findAll --------------------------------------------------------------

  /** The query string of the list endpoint (OfficerQueryDto); absent parameters are None. */
  datatype OfficerQuery = OfficerQuery(
    page: Option<int>,
    limit: Option<int>,
    search: Option<string>,
    department: Option<string>,
    unionPosition: Option<string>,
    isActive: Option<string>,
    tag: Option<string>)

  /** The query's validation: page and limit, when given, are at least 1. */
  predicate QueryValid(q: OfficerQuery) {
    (q.page.Some? ==> q.page.value >= 1) && (q.limit.Some? ==> q.limit.value >= 1)
  }

  function PageNumber(q: OfficerQuery): (r: nat)
    requires QueryValid(q)
    ensures r >= 1
  {
    if q.page.Some? then q.page.value else DEFAULT_PAGE
  }

  function PageLimit(q: OfficerQuery): (r: nat)
    requires QueryValid(q)
    ensures r >= 1
  {
    if q.limit.Some? then q.limit.value else DEFAULT_LIMIT
  }

  /** The rows before the requested page. */
  function Skip(q: OfficerQuery): nat
    requires QueryValid(q)
  {
    (PageNumber(q) - 1) * PageLimit(q)
  }

  /** ASCII case folding, standing for the database's case-insensitive comparison. */
  function Lower(c: char): char {
    if 'A' <= c <= 'Z' then (c as int + 32) as char else c
  }

  function Fold(s: string): (r: string)
    ensures |r| == |s|
  {
    seq(|s|, i requires 0 <= i < |s| => Lower(s[i]))
  }

  predicate OccursAt(hay: string, needle: string, k: nat) {
    k + |needle| <= |hay| && hay[k..k + |needle|] == needle
  }

  predicate Contains(hay: string, needle: string) {
    exists k: nat :: k <= |hay| && OccursAt(hay, needle, k)
  }

  /** `hay ILIKE '%needle%'`. */
  predicate ILike(hay: string, needle: string) {
    Contains(Fold(hay), Fold(needle))
  }

  /** A parameter that JavaScript treats as present: given and not the empty string. */
  predicate Given(s: Option<string>) {
    s.Some? && s.value != ""
  }

  /** The where-clause: role USER, then one conjunct per supplied filter; department and
      position are compared, as strings, with the stored enumeration codes. A user without a
      profile fails every condition on profile columns (they are null after the left join). */
  predicate Listed(u: User, profile: Option<OfficerProfile>, q: OfficerQuery) {
    && u.role == UserRole
    && (Given(q.search) ==>
          || (profile.Some? && ILike(profile.value.fullName, q.search.value))
          || (profile.Some? && ILike(profile.value.employeeId, q.search.value))
          || ILike(u.email, q.search.value))
    && (Given(q.department) ==> profile.Some? && DepartmentCode(profile.value.department) == q.department.value)
    && (Given(q.unionPosition) ==> profile.Some? && UnionPositionCode(profile.value.unionPosition) == q.unionPosition.value)
    && (Given(q.tag) ==> profile.Some? && q.tag.value in profile.value.tags)
    && (q.isActive.Some? ==> u.isActive == (q.isActive.value == "true"))
  }

  /** The profile joined to a user. */
  function ProfileOf(profiles: seq<OfficerProfile>, userId: Id): (r: Option<OfficerProfile>)
    ensures r.Some? ==> r.value in profiles && r.value.userId == userId
    ensures r.None? ==> forall k :: 0 <= k < |profiles| ==> profiles[k].userId != userId
  {
    match FirstIndex(profiles, (p: OfficerProfile) => p.userId == userId)
    case None => None
    case Some(i) => Some(profiles[i])
  }

  /** The where-clause as a predicate on accounts. */
  function ListedIn(profiles: seq<OfficerProfile>, q: OfficerQuery): User -> bool {
    (u: User) => Listed(u, ProfileOf(profiles, u.id), q)
  }

  /** The users the where-clause admits, in table order. */
  function Matching(users: seq<User>, profiles: seq<OfficerProfile>, q: OfficerQuery): seq<User> {
    Filter(users, ListedIn(profiles, q))
  }

  function UserCreatedAt(u: User): int { u.createdAt }

  function Min(a: int, b: int): int { if a <= b then a else b }

  /** `skip(skip).take(limit)`. */
  function Window<T>(s: seq<T>, skip: nat, limit: nat): (r: seq<T>)
    ensures |r| == if skip >= |s| then 0 else Min(limit, |s| - skip)
    ensures forall i :: 0 <= i < |r| ==> r[i] == s[skip + i]
  {
    s[Min(skip, |s|)..Min(skip + limit, |s|)]
  }

  /** The matching users, newest account first (`order: { createdAt: 'DESC' }`). */
  function Ranked(users: seq<User>, profiles: seq<OfficerProfile>, q: OfficerQuery): seq<User> {
    SortDesc(Matching(users, profiles, q), UserCreatedAt)
  }

  /** The matching users newest first, cut to the requested page. */
  function PageUsers(users: seq<User>, profiles: seq<OfficerProfile>, q: OfficerQuery): seq<User>
    requires QueryValid(q)
  {
    Window(Ranked(users, profiles, q), Skip(q), PageLimit(q))
  }

  /** One row of the list; columns of a missing profile are empty. */
  datatype OfficerRow = OfficerRow(
    id: Id, email: string, role: Role, isActive: bool, fullName: string, employeeId: string,
    unionPosition: string, department: string, tags: seq<string>)

  function Project(u: User, profile: Option<OfficerProfile>): OfficerRow {
    match profile
    case None => OfficerRow(u.id, u.email, u.role, u.isActive, "", "", "", "", [])
    case Some(p) =>
      OfficerRow(u.id, u.email, u.role, u.isActive, p.fullName, p.employeeId,
                 UnionPositionCode(p.unionPosition), DepartmentCode(p.department), p.tags)
  }

  datatype PageMeta = PageMeta(total: nat, page: int, limit: int, totalPages: nat)
  datatype OfficerPage = OfficerPage(data: seq<OfficerRow>, meta: PageMeta)

  /** `Math.ceil(total / limit)`. */
  function CeilDiv(total: nat, limit: int): (r: nat)
    requires limit >= 1
    ensures r * limit >= total
    ensures total > 0 ==> (r - 1) * limit < total
    ensures r == 0 <==> total == 0
  {
    (total + limit - 1) / limit
  }

  /** `users.map(...)`: one row per account, with its profile. */
  function Rows(page: seq<User>, profiles: seq<OfficerProfile>): (r: seq<OfficerRow>)
    ensures |r| == |page|
    ensures forall i :: 0 <= i < |r| ==> r[i] == Project(page[i], ProfileOf(profiles, page[i].id))
  {
    seq(|page|, i requires 0 <= i < |page| => Project(page[i], ProfileOf(profiles, page[i].id)))
  }

  /** Every account on a page passes the where-clause. */
  lemma PageUsersListed(users: seq<User>, profiles: seq<OfficerProfile>, q: OfficerQuery)
    requires QueryValid(q)
    ensures forall u :: u in PageUsers(users, profiles, q) ==> u in users && Listed(u, ProfileOf(profiles, u.id), q)
  {
    var matching := Matching(users, profiles, q);
    var sorted := SortDesc(matching, UserCreatedAt);
    SortDescSorted(matching, UserCreatedAt);
    var page := PageUsers(users, profiles, q);
    forall u | u in page ensures u in users && Listed(u, ProfileOf(profiles, u.id), q) {
      var i :| 0 <= i < |page| && page[i] == u;
      assert u == sorted[Skip(q) + i];
      assert u in multiset(matching) by {
        assert u in multiset(sorted);
      }
      var j :| 0 <= j < |matching| && matching[j] == u;
      assert ListedIn(profiles, q)(u);
    }
  }

  /** findAll: the requested page of matching officers, with the paging summary. */
  function FindAll(users: seq<User>, profiles: seq<OfficerProfile>, q: OfficerQuery): (r: OfficerPage)
    requires QueryValid(q)
    ensures |r.data| <= PageLimit(q)
    ensures r.meta.total == |Matching(users, profiles, q)|
    ensures |r.data| == if Skip(q) >= r.meta.total then 0 else Min(PageLimit(q), r.meta.total - Skip(q))
    ensures r.meta.page == PageNumber(q) && r.meta.limit == PageLimit(q)
    ensures r.meta.totalPages == CeilDiv(r.meta.total, PageLimit(q))
    ensures forall i :: 0 <= i < |r.data| ==>
      exists u :: u in users && Listed(u, ProfileOf(profiles, u.id), q)
        && r.data[i] == Project(u, ProfileOf(profiles, u.id))
    ensures |Ranked(users, profiles, q)| == r.meta.total
    ensures forall i :: 0 <= i < |r.data| ==>
      var u := Ranked(users, profiles, q)[Skip(q) + i]; r.data[i] == Project(u, ProfileOf(profiles, u.id))
  {
    var total := |Matching(users, profiles, q)|;
    var page := PageUsers(users, profiles, q);
    PageUsersListed(users, profiles, q);
    assert forall i :: 0 <= i < |page| ==> page[i] in page;
    OfficerPage(Rows(page, profiles), PageMeta(total, PageNumber(q), PageLimit(q), CeilDiv(total, PageLimit(q))))
  }

  /** Only accounts with role USER are listed, whatever the filters. */
  lemma FindAllListsOnlyUsers(users: seq<User>, profiles: seq<OfficerProfile>, q: OfficerQuery)
    requires QueryValid(q)
    ensures forall i :: 0 <= i < |FindAll(users, profiles, q).data| ==> FindAll(users, profiles, q).data[i].role == UserRole
  {
    var r := FindAll(users, profiles, q);
    forall i | 0 <= i < |r.data| ensures r.data[i].role == UserRole {
      var u :| u in users && Listed(u, ProfileOf(profiles, u.id), q) && r.data[i] == Project(u, ProfileOf(profiles, u.id));
    }
  }

  /** Item k of a list cut into pages of `limit` rows is shown on `page` at `pos`. */
  predicate PlacedAt(k: nat, limit: nat, page: nat, pos: nat) {
    page >= 1 && pos < limit && (page - 1) * limit + pos == k
  }

  /** Helper of EveryItemOnItsPage: the k-th item is shown on page k / limit + 1 at position
      k % limit and on no other page or position, and that page is at most the number of
      pages. */
  lemma PageArithmetic(k: nat, limit: nat, total: nat)
    requires limit >= 1 && k < total
    ensures PlacedAt(k, limit, k / limit + 1, k % limit)
    ensures k / limit + 1 <= CeilDiv(total, limit)
    ensures forall page, pos :: PlacedAt(k, limit, page, pos) ==> page == k / limit + 1 && pos == k % limit
  {
    forall page: nat, pos: nat | PlacedAt(k, limit, page, pos) ensures page == k / limit + 1 && pos == k % limit {
      DivOfPlaced(page - 1, limit, pos);
    }
  }

  lemma DivOfPlaced(a: nat, limit: nat, pos: nat)
    requires pos < limit
    ensures (a * limit + pos) / limit == a && (a * limit + pos) % limit == pos
  {
    var n := a * limit + pos;
    var d, m := n / limit, n % limit;
    assert d * limit + m == n;
    if d > a {
      MulGap(d, a, limit);
    } else if d < a {
      MulGap(a, d, limit);
    }
  }

  lemma MulGap(x: nat, y: nat, z: nat)
    requires x > y
    ensures x * z >= y * z + z
  {
    assert x * z == y * z + (x - y - 1) * z + z;
  }

  /** The page number takes no part in the where-clause. */
  lemma MatchingIgnoresPage(users: seq<User>, profiles: seq<OfficerProfile>, q: OfficerQuery, page: Option<int>)
    ensures Matching(users, profiles, q.(page := page)) == Matching(users, profiles, q)
  {
    FilterAgreeing(users, ListedIn(profiles, q.(page := page)), ListedIn(profiles, q));
  }

  /** The query asking for the page that holds the k-th matching officer. */
  function PageHolding(q: OfficerQuery, k: nat): (r: OfficerQuery)
    requires QueryValid(q)
    ensures QueryValid(r) && PageLimit(r) == PageLimit(q) && PageNumber(r) == k / PageLimit(q) + 1
  {
    q.(page := Some(k / PageLimit(q) + 1))
  }

  /** The pages partition the listing: the k-th matching officer, newest first, is row
      k % limit of page k / limit + 1, that page is at most `totalPages`, and the officer's
      rank is shown at no other page and position. */
  lemma EveryItemOnItsPage(users: seq<User>, profiles: seq<OfficerProfile>, q: OfficerQuery, k: nat)
    requires QueryValid(q) && k < |Matching(users, profiles, q)|
    ensures k / PageLimit(q) + 1 <= FindAll(users, profiles, PageHolding(q, k)).meta.totalPages
    ensures k % PageLimit(q) < |FindAll(users, profiles, PageHolding(q, k)).data|
    ensures var u := Ranked(users, profiles, q)[k];
      FindAll(users, profiles, PageHolding(q, k)).data[k % PageLimit(q)] == Project(u, ProfileOf(profiles, u.id))
    ensures forall page: nat, pos: nat :: PlacedAt(k, PageLimit(q), page, pos) ==>
      page == k / PageLimit(q) + 1 && pos == k % PageLimit(q)
  {
    var limit := PageLimit(q);
    var onPage := PageHolding(q, k);
    MatchingIgnoresPage(users, profiles, q, onPage.page);
    PageArithmetic(k, limit, |Matching(users, profiles, q)|);
    assert Skip(onPage) + k % limit == k;
    FindAllRowAt(users, profiles, onPage, k % limit);
  }

  /** Row j of a page is the officer ranked Skip + j, when that rank exists. */
  lemma FindAllRowAt(users: seq<User>, profiles: seq<OfficerProfile>, q: OfficerQuery, j: nat)
    requires QueryValid(q) && j < PageLimit(q) && Skip(q) + j < |Matching(users, profiles, q)|
    ensures j < |FindAll(users, profiles, q).data|
    ensures var u := Ranked(users, profiles, q)[Skip(q) + j];
      FindAll(users, profiles, q).data[j] == Project(u, ProfileOf(profiles, u.id))
    ensures FindAll(users, profiles, q).meta.totalPages == CeilDiv(|Matching(users, profiles, q)|, PageLimit(q))
  {
    var r := FindAll(users, profiles, q);
  }

  /** A window of a sequence ordered by a key is ordered by it. */
  lemma WindowSorted<T>(s: seq<T>, key: T -> int, skip: nat, limit: nat)
    requires SortedDesc(s, key)
    ensures SortedDesc(Window(s, skip, limit), key)
  {
    var w := Window(s, skip, limit);
    forall i, j | 0 <= i < j < |w| ensures key(w[i]) >= key(w[j]) {
      assert w[i] == s[skip + i] && w[j] == s[skip + j];
    }
  }

  /** The rows of a page are ordered newest account first. */
  lemma PageNewestFirst(users: seq<User>, profiles: seq<OfficerProfile>, q: OfficerQuery)
    requires QueryValid(q)
    ensures var page := PageUsers(users, profiles, q);
      forall i, j :: 0 <= i < j < |page| ==> page[i].createdAt >= page[j].createdAt
  {
    var matching := Matching(users, profiles, q);
    SortDescSorted(matching, UserCreatedAt);
    WindowSorted(SortDesc(matching, UserCreatedAt), UserCreatedAt, Skip(q), PageLimit(q));
    var page := PageUsers(users, profiles, q);
    assert SortedDesc(page, UserCreatedAt);
    forall i, j | 0 <= i < j < |page| ensures page[i].createdAt >= page[j].createdAt {
      assert UserCreatedAt(page[i]) >= UserCreatedAt(page[j]);
    }
  }

  /** The status filter compares with the string "true": any other value, the empty string
      the list page sends for "all statuses" included, selects the inactive accounts. */
  lemma EmptyStatusFilterSelectsInactive(users: seq<User>, profiles: seq<OfficerProfile>, q: OfficerQuery)
    requires QueryValid(q) && q.isActive == Some("")
    ensures forall i :: 0 <= i < |FindAll(users, profiles, q).data| ==> !FindAll(users, profiles, q).data[i].isActive
  {
    var r := FindAll(users, profiles, q);
    forall i | 0 <= i < |r.data| ensures !r.data[i].isActive {
      var u :| u in users && Listed(u, ProfileOf(profiles, u.id), q) && r.data[i] == Project(u, ProfileOf(profiles, u.id));
    }
  }

  // ----- findOne / getHistory -------------------------------------------------

  datatype OfficerDetail = OfficerDetail(id: Id, email: string, isActive: bool, profile: Option<OfficerProfile>)

  function UserIndex(users: seq<User>, id: Id): Option<nat> {
    FirstIndex(users, (u: User) => u.id == id)
  }

  /** findOne: the account with its profile, of any role, or NotFound. */
  function FindOne(users: seq<User>, profiles: seq<OfficerProfile>, id: Id): (r: Response<OfficerDetail>)
    ensures r.Ok? <==> exists i :: 0 <= i < |users| && users[i].id == id
    ensures r.Err? ==> r.error == NotFound(OFFICER_NOT_FOUND_MSG)
    ensures r.Ok? ==> r.value.id == id && r.value.profile == ProfileOf(profiles, id)
    ensures r.Ok? ==> exists i :: (0 <= i < |users| && users[i].id == id && users[i].email == r.value.email
        && users[i].isActive == r.value.isActive)
  {
    match UserIndex(users, id)
    case None => Err(NotFound(OFFICER_NOT_FOUND_MSG))
    case Some(i) => Ok(OfficerDetail(users[i].id, users[i].email, users[i].isActive, ProfileOf(profiles, id)))
  }

  function HistoryDate(h: OfficerHistory): int { h.changeDate }

  /** getHistory: the officer's history rows, most recent change first. */
  function GetHistory(history: seq<OfficerHistory>, id: Id): (r: seq<OfficerHistory>)
    ensures forall h :: h in r <==> h in history && h.officerId == id
    ensures SortedDesc(r, HistoryDate)
    ensures multiset(r) == multiset(Filter(history, (h: OfficerHistory) => h.officerId == id))
  {
    var own := Filter(history, (h: OfficerHistory) => h.officerId == id);
    SortDescSorted(own, HistoryDate);
    assert forall h :: h in history && h.officerId == id ==> h in own by {
      forall h | h in history && h.officerId == id ensures h in own {
        var k :| 0 <= k < |history| && history[k] == h;
      }
    }
    SortDesc(own, HistoryDate)
  }

  // ----- updateStatus ---------------------------------------------------------

  function StatusLabel(active: bool): string {
    if active then "Đang công tác" else "Nghỉ"
  }

  datatype StatusReply = StatusReply(message: string, isActive: bool)

  /** updateStatus on the users and history tables; `hid` is the key of a history row it
      writes, `now` its change date. */
  function UpdateStatusStep(users: seq<User>, history: seq<OfficerHistory>, hid: Id, id: Id, isActive: bool, now: Time)
    : (r: (seq<User>, seq<OfficerHistory>, Response<StatusReply>))
    ensures (forall i :: 0 <= i < |users| ==> users[i].id != id) ==>
      r == (users, history, Err(NotFound(OFFICER_NOT_FOUND_MSG)))
    ensures r.2.Ok? <==> HasAccount(users, id)
    ensures r.2.Ok? ==> r.2.value == StatusReply(STATUS_UPDATED_MSG, isActive)
    ensures r.2.Ok? ==> exists i :: (0 <= i < |users| && users[i].id == id &&
      if users[i].isActive == isActive then r.0 == users && r.1 == history
      else (r.0 == users[i := users[i].(isActive := isActive)]
        && r.1 == history + [OfficerHistory(hid, id, StatusChange, StatusLabel(!isActive), StatusLabel(isActive), STATUS_NOTE, now)]))
  {
    match UserIndex(users, id)
    case None => (users, history, Err(NotFound(OFFICER_NOT_FOUND_MSG)))
    case Some(i) =>
      var u := users[i];
      if u.isActive == isActive then (users, history, Ok(StatusReply(STATUS_UPDATED_MSG, isActive)))
      else
        var row := OfficerHistory(hid, id, StatusChange, StatusLabel(u.isActive), StatusLabel(isActive), STATUS_NOTE, now);
        (users[i := u.(isActive := isActive)], history + [row], Ok(StatusReply(STATUS_UPDATED_MSG, isActive)))
  }

  method UpdateStatus(db: Database, id: Id, isActive: bool, now: Time) returns (r: Response<StatusReply>)
    requires db.Valid()
    modifies db
    ensures db.Valid()
    ensures db.profiles == old(db.profiles) && db.cvs == old(db.cvs)
    ensures (db.users, db.history, r) == UpdateStatusStep(old(db.users), old(db.history), old(db.nextId), id, isActive, now)
  {
    var found := UserIndex(db.users, id);
    if found.None? {
      return Err(NotFound(OFFICER_NOT_FOUND_MSG));
    }
    var i := found.value;
    var user := db.users[i];
    var oldStatus := StatusLabel(user.isActive);
    var newStatus := StatusLabel(isActive);
    if user.isActive != isActive {
      user := user.(isActive := isActive);
      UserSaveKeepsValid(db.users, i, user, db.nextId);
      db.users := db.users[i := user];
      var hid := db.NewId();
      db.history := db.history + [OfficerHistory(hid, id, StatusChange, oldStatus, newStatus, STATUS_NOTE, now)];
    }
    r := Ok(StatusReply(STATUS_UPDATED_MSG, user.isActive));
  }

  /** Setting a status twice logs once: the second call changes nothing. */
  lemma UpdateStatusIdempotent(users: seq<User>, history: seq<OfficerHistory>, h1: Id, h2: Id, id: Id,
                               isActive: bool, t1: Time, t2: Time)
    requires UpdateStatusStep(users, history, h1, id, isActive, t1).2.Ok?
    ensures var r := UpdateStatusStep(users, history, h1, id, isActive, t1);
      UpdateStatusStep(r.0, r.1, h2, id, isActive, t2) == (r.0, r.1, Ok(StatusReply(STATUS_UPDATED_MSG, isActive)))
  {
    var i := UserIndex(users, id).value;
    var r := UpdateStatusStep(users, history, h1, id, isActive, t1);
    if users[i].isActive != isActive {
      FirstIndexUpdateSame(users, (u: User) => u.id == id, i, users[i].(isActive := isActive));
      assert UserIndex(r.0, id) == Some(i);
    }
  }

  // ----- update ---------------------------------------------------------------

  datatype UpdateReply = UpdateReply(message: string, data: OfficerDetail)

  function ProfileIndex(profiles: seq<OfficerProfile>, userId: Id): Option<nat> {
    FirstIndex(profiles, (p: OfficerProfile) => p.userId == userId)
  }

  /** The history row recorded when an update moves an officer to another department. */
  function UnitChangeRow(hid: Id, id: Id, from: Department, to: Department, now: Time): OfficerHistory {
    OfficerHistory(hid, id, UnitChange, DepartmentCode(from), DepartmentCode(to), UNIT_NOTE, now)
  }

  /** update on the profiles and history tables: NotFound for an unknown account; an account
      without a profile is left alone; otherwise the patch is merged into the profile and
      saved, and a department change is logged. A save the database refuses (a null in a
      required column, a taken unique value) fails with nothing written. The reply is
      findOne afterwards. */
  function UpdateStep(users: seq<User>, profiles: seq<OfficerProfile>, history: seq<OfficerHistory>,
                      hid: Id, id: Id, patch: ProfilePatch, now: Time)
    : (r: (seq<OfficerProfile>, seq<OfficerHistory>, Response<UpdateReply>))
    ensures r.2.Err? ==> r.0 == profiles && r.1 == history
    ensures !HasAccount(users, id) ==> r.2 == Err(NotFound(OFFICER_NOT_FOUND_MSG))
    ensures HasAccount(users, id) && ProfileIndex(profiles, id).None? ==>
      r.2.Ok? && r.0 == profiles && r.1 == history
    ensures HasAccount(users, id) && ProfileIndex(profiles, id).Some? ==>
      var i := ProfileIndex(profiles, id).value;
      && (ClearsRequired(patch) ==> r.2 == Err(ServerError(NOT_NULL_MSG)))
      && (!ClearsRequired(patch) && UniqueViolation(profiles, i, Merge(profiles[i], patch)) ==>
            r.2 == Err(ServerError(UNIQUE_VIOLATION_MSG)))
      && (!ClearsRequired(patch) && !UniqueViolation(profiles, i, Merge(profiles[i], patch)) ==> r.2.Ok?)
    ensures r.2.Ok? ==> r.2.value.data == FindOne(users, r.0, id).value
    ensures r.1 != history ==>
      && patch.department.Given?
      && var i := ProfileIndex(profiles, id).value;
         profiles[i].department != patch.department.value
         && r.1 == history + [UnitChangeRow(hid, id, profiles[i].department, patch.department.value, now)]
    ensures r.2.Ok? && ProfileIndex(profiles, id).Some? ==>
      var i := ProfileIndex(profiles, id).value;
      && r.0 == profiles[i := Merge(profiles[i], patch)]
      && (patch.department.Given? && profiles[i].department != patch.department.value ==> r.1 != history)
  {
    if UserIndex(users, id).None? then (profiles, history, Err(NotFound(OFFICER_NOT_FOUND_MSG)))
    else
      match ProfileIndex(profiles, id)
      case None => (profiles, history, Ok(UpdateReply(UPDATED_MSG, FindOne(users, profiles, id).value)))
      case Some(i) =>
        var oldDepartment := profiles[i].department;
        var merged := Merge(profiles[i], patch);
        if ClearsRequired(patch) then (profiles, history, Err(ServerError(NOT_NULL_MSG)))
        else if UniqueViolation(profiles, i, merged) then (profiles, history, Err(ServerError(UNIQUE_VIOLATION_MSG)))
        else
          var profiles' := profiles[i := merged];
          var history' :=
            if patch.department.Given? && oldDepartment != patch.department.value
            then history + [UnitChangeRow(hid, id, oldDepartment, patch.department.value, now)]
            else history;
          (profiles', history', Ok(UpdateReply(UPDATED_MSG, FindOne(users, profiles', id).value)))
  }

  method Update(db: Database, id: Id, patch: ProfilePatch, now: Time) returns (r: Response<UpdateReply>)
    requires db.Valid()
    modifies db
    ensures db.Valid()
    ensures db.users == old(db.users) && db.cvs == old(db.cvs)
    ensures (db.profiles, db.history, r) == UpdateStep(old(db.users), old(db.profiles), old(db.history), old(db.nextId), id, patch, now)
  {
    var found := UserIndex(db.users, id);
    if found.None? {
      return Err(NotFound(OFFICER_NOT_FOUND_MSG));
    }
    var pi := ProfileIndex(db.profiles, id);
    if pi.Some? {
      var i := pi.value;
      var profile := db.profiles[i];
      var oldDepartment := profile.department;
      var newDepartment := patch.department;
      profile := Merge(profile, patch);
      if ClearsRequired(patch) {
        return Err(ServerError(NOT_NULL_MSG));
      }
      if UniqueViolation(db.profiles, i, profile) {
        return Err(ServerError(UNIQUE_VIOLATION_MSG));
      }
      SaveKeepsProfilesValid(db.profiles, i, profile);
      var profiles := db.profiles[i := profile];
      var history := db.history;
      if newDepartment.Given? && oldDepartment != newDepartment.value {
        var hid := db.NewId();
        history := history + [UnitChangeRow(hid, id, oldDepartment, newDepartment.value, now)];
      }
      db.Commit(db.users, profiles, db.cvs, history);
    }
    var detail := FindOne(db.users, db.profiles, id);
    r := Ok(UpdateReply(UPDATED_MSG, detail.value));
  }

  // ----- remove ---------------------------------------------------------------

  datatype RemoveReply = RemoveReply(message: string)

  /** Whether some account has that primary key. */
  predicate HasAccount(users: seq<User>, id: Id) {
    exists i :: 0 <= i < |users| && users[i].id == id
  }

  /** The rows left in each table once an account and its cascade are deleted. */
  function WithoutUser(users: seq<User>, id: Id): seq<User> {
    Filter(users, (u: User) => u.id != id)
  }

  function WithoutOwnerProfiles(profiles: seq<OfficerProfile>, id: Id): seq<OfficerProfile> {
    Filter(profiles, (p: OfficerProfile) => p.userId != id)
  }

  function WithoutOwnerCvs(cvs: seq<Cv>, id: Id): seq<Cv> {
    Filter(cvs, (c: Cv) => c.userId != id)
  }

  function WithoutOfficerHistory(history: seq<OfficerHistory>, id: Id): seq<OfficerHistory> {
    Filter(history, (h: OfficerHistory) => h.officerId != id)
  }

  /** Deleting an account with everything that cascades from it keeps every table
      consistent and every key below the counter. */
  lemma RemoveKeepsValid(users: seq<User>, profiles: seq<OfficerProfile>, cvs: seq<Cv>,
                         history: seq<OfficerHistory>, bound: Id, id: Id)
    requires TablesValid(users, profiles, cvs, history, bound)
    ensures TablesValid(WithoutUser(users, id), WithoutOwnerProfiles(profiles, id),
                        WithoutOwnerCvs(cvs, id), WithoutOfficerHistory(history, id), bound)
  {
    FilterKeepsUsersValid(users, (u: User) => u.id != id);
    FilterKeepsProfilesValid(profiles, (p: OfficerProfile) => p.userId != id);
    CvsValidWithoutUser(cvs, id);
    FilterKeysBelow(users, (u: User) => u.id != id, UserKey, bound);
    FilterKeysBelow(profiles, (p: OfficerProfile) => p.userId != id, ProfileKey, bound);
    FilterKeysBelow(cvs, (c: Cv) => c.userId != id, CvKey, bound);
    FilterKeysBelow(history, (h: OfficerHistory) => h.officerId != id, HistoryKey, bound);
  }

  /** remove: NotFound for an unknown account; otherwise the account is deleted and the
      cascade deletes its profile, its CVs and its history. */
  function RemoveStep(users: seq<User>, profiles: seq<OfficerProfile>, cvs: seq<Cv>,
                      history: seq<OfficerHistory>, id: Id)
    : (r: (seq<User>, seq<OfficerProfile>, seq<Cv>, seq<OfficerHistory>, Response<RemoveReply>))
    ensures !HasAccount(users, id) ==>
      r == (users, profiles, cvs, history, Err(NotFound(OFFICER_NOT_FOUND_MSG)))
    ensures HasAccount(users, id) ==>
      r == (WithoutUser(users, id), WithoutOwnerProfiles(profiles, id), WithoutOwnerCvs(cvs, id),
            WithoutOfficerHistory(history, id), Ok(RemoveReply(REMOVED_MSG)))
  {
    if UserIndex(users, id).None? then (users, profiles, cvs, history, Err(NotFound(OFFICER_NOT_FOUND_MSG)))
    else (WithoutUser(users, id), WithoutOwnerProfiles(profiles, id), WithoutOwnerCvs(cvs, id),
          WithoutOfficerHistory(history, id), Ok(RemoveReply(REMOVED_MSG)))
  }

  method Remove(db: Database, id: Id) returns (r: Response<RemoveReply>)
    requires db.Valid()
    modifies db
    ensures db.Valid()
    ensures (db.users, db.profiles, db.cvs, db.history, r)
         == RemoveStep(old(db.users), old(db.profiles), old(db.cvs), old(db.history), id)
  {
    var found := UserIndex(db.users, id);
    if found.None? {
      return Err(NotFound(OFFICER_NOT_FOUND_MSG));
    }
    RemoveKeepsValid(db.users, db.profiles, db.cvs, db.history, db.nextId, id);
    db.Commit(WithoutUser(db.users, id), WithoutOwnerProfiles(db.profiles, id),
              WithoutOwnerCvs(db.cvs, id), WithoutOfficerHistory(db.history, id));
    r := Ok(RemoveReply(REMOVED_MSG));
  }

  /** After a removal the account is gone, findOne reports NotFound, every other account is
      still there, and the officer's CV list is empty. */
  lemma RemovedOfficerIsGone(users: seq<User>, profiles: seq<OfficerProfile>, cvs: seq<Cv>, id: Id)
    ensures var users' := WithoutUser(users, id);
      && FindOne(users', WithoutOwnerProfiles(profiles, id), id) == Err(NotFound(OFFICER_NOT_FOUND_MSG))
      && (forall i :: 0 <= i < |users| && users[i].id != id ==> users[i] in users')
      && (forall c :: c in WithoutOwnerCvs(cvs, id) ==> c.userId != id)
  {
    var users' := WithoutUser(users, id);
    assert forall i :: 0 <= i < |users'| ==> users'[i].id != id;
  }
}
