/**
  * The administrators' officer list (frontend/src/pages/AdminOfficerListPage.tsx): the
  * filter bar, the status toggle on each row and the pagination footer, over the pages
  * the officer listing returns.
  */
module OfficerListPage {
  import opened Wrappers
  import opened Entities
  import opened Queries
  import opened AdminOfficerService

  /** The four inputs of the filter bar, by their `name` attribute. */
  datatype FilterName = Search | DepartmentFilter | UnionPositionFilter | IsActiveFilter

  /** The filter bar's state; "" is the "all" choice of each select. */
  datatype Filters = Filters(search: string, department: string, unionPosition: string, isActive: string)

  const NO_FILTERS: Filters := Filters("", "", "", "")
  const INITIAL_META: PageMeta := PageMeta(total := 0, page := 1, limit := 10, totalPages := 1)
  const PAGE_SIZE: nat := 10

  function FilterValue(f: Filters, name: FilterName): string {
    match name
    case Search => f.search
    case DepartmentFilter => f.department
    case UnionPositionFilter => f.unionPosition
    case IsActiveFilter => f.isActive
  }

  /** `{ ...filters, [name]: value }`. */
  function WithFilter(f: Filters, name: FilterName, value: string): (r: Filters)
    ensures FilterValue(r, name) == value
    ensures forall other :: other != name ==> FilterValue(r, other) == FilterValue(f, other)
  {
    match name
    case Search => f.(search := value)
    case DepartmentFilter => f.(department := value)
    case UnionPositionFilter => f.(unionPosition := value)
    case IsActiveFilter => f.(isActive := value)
  }

  /** `fetchOfficers(page, filters)`: the page asked for, ten rows a page, and the filters. */
  datatype FetchRequest = FetchRequest(page: nat, filters: Filters)

  /** The request as the officer listing receives it: every filter is sent as the string
      the filter bar holds, and the listing ignores an empty one. */
  function RequestQuery(req: FetchRequest): (q: OfficerQuery)
    ensures req.page >= 1 ==> QueryValid(q) && PageNumber(q) == req.page && PageLimit(q) == PAGE_SIZE
    ensures q.search == Some(req.filters.search) && q.isActive == Some(req.filters.isActive)
    ensures q.department == Some(req.filters.department) && q.unionPosition == Some(req.filters.unionPosition)
    ensures q.tag.None?
  {
    OfficerQuery(
      page := Some(req.page), limit := Some(PAGE_SIZE as int), search := Some(req.filters.search),
      department := Some(req.filters.department), unionPosition := Some(req.filters.unionPosition),
      isActive := Some(req.filters.isActive), tag := None)
  }

  /** The values the department and position selects send besides "": the Vietnamese
      labels, in the order the page lists them. */
  const DEPARTMENT_OPTIONS_AS_WRITTEN: seq<string> :=
    ["Ban Tuyên giáo", "Ban Tổ chức", "Ban Chính sách pháp luật", "Văn phòng", "Ban Nữ công"]
  const UNION_POSITION_OPTIONS_AS_WRITTEN: seq<string> :=
    ["Chủ tịch", "Phó Chủ tịch", "Ủy viên Ban Thường vụ", "Ủy viên Ban Chấp hành", "Cán bộ chuyên trách"]

  /** As written, choosing any department or any position in the filter bar lists nobody:
      the selects send labels, and the listing compares them with stored codes. */
  lemma LabelFilterListsNothing(users: seq<User>, profiles: seq<OfficerProfile>, req: FetchRequest)
    requires req.filters.department in DEPARTMENT_OPTIONS_AS_WRITTEN
          || req.filters.unionPosition in UNION_POSITION_OPTIONS_AS_WRITTEN
    ensures Matching(users, profiles, RequestQuery(req)) == []
  {
    var q := RequestQuery(req);
    forall i | 0 <= i < |users| ensures !ListedIn(profiles, q)(users[i]) {
      var profile := ProfileOf(profiles, users[i].id);
      if profile.Some? {
        assert DepartmentCode(profile.value.department) !in DEPARTMENT_OPTIONS_AS_WRITTEN;
        assert UnionPositionCode(profile.value.unionPosition) !in UNION_POSITION_OPTIONS_AS_WRITTEN;
      }
    }
    FilterRejectsAll(users, ListedIn(profiles, q));
  }

  /** With options that send the enumeration codes, a department or position choice lists
      exactly the officers of that department or position that the other filters admit. */
  lemma CodeFilterSelects(u: User, profile: Option<OfficerProfile>, req: FetchRequest,
                          d: Department, p: UnionPosition)
    requires req.filters.department == DepartmentCode(d)
    requires req.filters.unionPosition == UnionPositionCode(p)
    ensures Listed(u, profile, RequestQuery(req)) <==>
      && profile.Some? && profile.value.department == d && profile.value.unionPosition == p
      && Listed(u, profile, RequestQuery(req.(filters := req.filters.(department := "", unionPosition := ""))))
  {
    if profile.Some? {
      DepartmentCodeInjective(profile.value.department, d);
      UnionPositionCodeInjective(profile.value.unionPosition, p);
    }
  }

  lemma DepartmentCodeInjective(a: Department, b: Department)
    ensures DepartmentCode(a) == DepartmentCode(b) ==> a == b
  {
  }

  lemma UnionPositionCodeInjective(a: UnionPosition, b: UnionPosition)
    ensures UnionPositionCode(a) == UnionPositionCode(b) ==> a == b
  {
  }

  /** `officers.map(o => o.id === id ? { ...o, isActive: status } : o)`. */
  function Toggled(officers: seq<OfficerRow>, id: Id, status: bool): (r: seq<OfficerRow>)
    ensures |r| == |officers|
    ensures forall i :: 0 <= i < |r| && officers[i].id != id ==> r[i] == officers[i]
    ensures forall i :: 0 <= i < |r| && officers[i].id == id ==> r[i] == officers[i].(isActive := status)
  {
    if officers == [] then []
    else
      var head := if officers[0].id == id then officers[0].(isActive := status) else officers[0];
      [head] + Toggled(officers[1..], id, status)
  }

  /** Toggling back restores the list, when every row of that officer showed the status the
      first toggle started from. */
  lemma ToggleBackRestores(officers: seq<OfficerRow>, id: Id, current: bool)
    requires forall i :: 0 <= i < |officers| && officers[i].id == id ==> officers[i].isActive == current
    ensures Toggled(Toggled(officers, id, !current), id, current) == officers
  {
    var back := Toggled(Toggled(officers, id, !current), id, current);
    assert forall i :: 0 <= i < |officers| ==> back[i] == officers[i];
  }

  /** Helper of HandleToggleStatus: the toggled row is the listing's row for the account
      after updateStatus. */
  lemma ToggleMatchesServer(u: User, profile: Option<OfficerProfile>, status: bool)
    ensures Toggled([Project(u, profile)], u.id, status) == [Project(u.(isActive := status), profile)]
  {
  }

  /** The first row shown, `(page - 1) * limit + 1`. */
  function RangeStart(m: PageMeta): int {
    (m.page - 1) * m.limit + 1
  }

  /** The last row shown, `Math.min(page * limit, total)`. */
  function RangeEnd(m: PageMeta): (r: int)
    ensures r <= m.total
    ensures r == m.total || r == m.page * m.limit
  {
    Min(m.page * m.limit, m.total)
  }

  predicate PaginationShown(m: PageMeta) { m.totalPages > 1 }
  predicate PreviousDisabled(m: PageMeta) { m.page == 1 }
  predicate NextDisabled(m: PageMeta) { m.page == m.totalPages }

  /** Arithmetic helper of FooterArithmetic: multiplying by a non-negative factor keeps order. */
  lemma MulMonotone(a: int, b: int, c: int)
    requires a <= b && c >= 0
    ensures a * c <= b * c
  {
  }

  /** Arithmetic helper of FooterArithmetic: one more page of `c` rows. */
  lemma MulStep(a: int, c: int)
    ensures (a - 1) * c + c == a * c
  {
  }

  /** Arithmetic helper of FooterArithmetic: a zero product with a positive factor. */
  lemma MulZero(a: int, c: int)
    requires c >= 1 && a >= 0 && a * c == 0
    ensures a == 0
  {
    if a >= 1 {
      MulMonotone(1, a, c);
    }
  }

  /** What the listing reports about a page `m` that exists, comes after `skip` rows and
      holds `len` rows. */
  predicate PageFacts(m: PageMeta, len: nat, skip: nat) {
    && m.limit >= 1 && 1 <= m.page <= m.totalPages && m.totalPages == CeilDiv(m.total, m.limit)
    && skip == (m.page - 1) * m.limit
    && len == if skip >= m.total then 0 else Min(m.limit, m.total - skip)
  }

  /** Helper of RangeMatchesPage and ButtonsMatchRange: an existing page of the listing
      satisfies PageFacts. */
  lemma ListingPageFacts(users: seq<User>, profiles: seq<OfficerProfile>, q: OfficerQuery)
    requires QueryValid(q)
    requires PageNumber(q) <= FindAll(users, profiles, q).meta.totalPages
    ensures PageFacts(FindAll(users, profiles, q).meta, |FindAll(users, profiles, q).data|, Skip(q))
  {
  }

  /** The footer's figures for a page described by PageFacts. */
  lemma FooterArithmetic(m: PageMeta, len: nat, skip: nat)
    requires PageFacts(m, len, skip)
    ensures RangeStart(m) == skip + 1
    ensures RangeEnd(m) - RangeStart(m) + 1 == len
    ensures PreviousDisabled(m) <==> RangeStart(m) == 1
    ensures NextDisabled(m) <==> RangeEnd(m) == m.total
  {
    MulMonotone(m.page - 1, m.totalPages - 1, m.limit);
    MulStep(m.page, m.limit);
    if RangeStart(m) == 1 {
      MulZero(m.page - 1, m.limit);
    }
    if m.page < m.totalPages {
      MulMonotone(m.page, m.totalPages - 1, m.limit);
    }
  }

  /** On an existing page of the listing, the footer's range covers exactly the rows
      returned: it starts after the skipped rows and spans as many rows as the page holds. */
  lemma RangeMatchesPage(users: seq<User>, profiles: seq<OfficerProfile>, q: OfficerQuery)
    requires QueryValid(q)
    requires PageNumber(q) <= FindAll(users, profiles, q).meta.totalPages
    ensures RangeStart(FindAll(users, profiles, q).meta) == Skip(q) + 1
    ensures RangeEnd(FindAll(users, profiles, q).meta) - RangeStart(FindAll(users, profiles, q).meta) + 1
         == |FindAll(users, profiles, q).data|
  {
    var r := FindAll(users, profiles, q);
    ListingPageFacts(users, profiles, q);
    FooterArithmetic(r.meta, |r.data|, Skip(q));
  }

  /** On an existing page, "Previous" is disabled exactly when no row comes before the
      range, and "Next" exactly when no row comes after it. */
  lemma ButtonsMatchRange(users: seq<User>, profiles: seq<OfficerProfile>, q: OfficerQuery)
    requires QueryValid(q)
    requires PageNumber(q) <= FindAll(users, profiles, q).meta.totalPages
    ensures PreviousDisabled(FindAll(users, profiles, q).meta) <==> RangeStart(FindAll(users, profiles, q).meta) == 1
    ensures NextDisabled(FindAll(users, profiles, q).meta)
        <==> RangeEnd(FindAll(users, profiles, q).meta) == FindAll(users, profiles, q).meta.total
  {
    var r := FindAll(users, profiles, q);
    ListingPageFacts(users, profiles, q);
    FooterArithmetic(r.meta, |r.data|, Skip(q));
  }

  /** The status select's "all" choice sends `isActive: ""`, which the listing compares with
      "true": every row fetched is an inactive account. */
  lemma AllStatusesListsOnlyInactive(users: seq<User>, profiles: seq<OfficerProfile>, req: FetchRequest)
    requires req.page >= 1 && req.filters.isActive == ""
    ensures forall i :: 0 <= i < |FindAll(users, profiles, RequestQuery(req)).data| ==>
      !FindAll(users, profiles, RequestQuery(req)).data[i].isActive
  {
    EmptyStatusFilterSelectsInactive(users, profiles, RequestQuery(req));
  }

  /** An account the listing shows when no filter is applied: role USER. */
  predicate IsOfficer(u: User) {
    u.role == UserRole
  }

  predicate IsInactiveOfficer(u: User) {
    u.role == UserRole && !u.isActive
  }

  /** As written, the list's first view, with every filter on "all", holds exactly the
      inactive officers: the empty status is compared with "true". */
  lemma DefaultViewListsOnlyInactive(users: seq<User>, profiles: seq<OfficerProfile>, req: FetchRequest)
    requires req.filters == NO_FILTERS
    ensures Matching(users, profiles, RequestQuery(req)) == Filter(users, IsInactiveOfficer)
  {
    FilterAgreeing(users, ListedIn(profiles, RequestQuery(req)), IsInactiveOfficer);
  }

  /** A select left on "all" as the intended request carries it: not sent at all. */
  function Chosen(v: string): (r: Option<string>)
    ensures r.None? <==> v == ""
    ensures r.Some? ==> r.value == v
  {
    if v == "" then None else Some(v)
  }

  /** The intended request: the given page, ten rows a page, and only the filters that are
      not on "all". */
  function RequestQueryOmittingAll(req: FetchRequest): (q: OfficerQuery)
    ensures req.page >= 1 ==> QueryValid(q) && PageNumber(q) == req.page && PageLimit(q) == PAGE_SIZE
    ensures q.search == Chosen(req.filters.search) && q.isActive == Chosen(req.filters.isActive)
    ensures q.department == Chosen(req.filters.department)
    ensures q.unionPosition == Chosen(req.filters.unionPosition)
    ensures q.tag.None?
  {
    OfficerQuery(
      page := Some(req.page), limit := Some(PAGE_SIZE as int), search := Chosen(req.filters.search),
      department := Chosen(req.filters.department), unionPosition := Chosen(req.filters.unionPosition),
      isActive := Chosen(req.filters.isActive), tag := None)
  }

  /** With the intended request, the status "all" takes no part in the selection: an account
      is listed or not whatever its status. */
  lemma AllStatusesListsEveryStatus(u: User, profile: Option<OfficerProfile>, req: FetchRequest, active: bool)
    requires req.filters.isActive == ""
    ensures Listed(u, profile, RequestQueryOmittingAll(req)) <==>
      Listed(u.(isActive := active), profile, RequestQueryOmittingAll(req))
  {
  }

  /** With the intended request, the first view lists every officer, active and inactive,
      in table order before sorting. */
  lemma DefaultViewListsEveryOfficer(users: seq<User>, profiles: seq<OfficerProfile>, req: FetchRequest)
    requires req.filters == NO_FILTERS
    ensures Matching(users, profiles, RequestQueryOmittingAll(req)) == Filter(users, IsOfficer)
  {
    FilterAgreeing(users, ListedIn(profiles, RequestQueryOmittingAll(req)), IsOfficer);
  }

  /** `updateOfficerStatus(id, isActive)`. */
  datatype StatusRequest = StatusRequest(id: Id, isActive: bool)

  class ListPage {
    var officers: seq<OfficerRow>
    var filters: Filters
    var meta: PageMeta

    constructor ()
      ensures officers == [] && filters == NO_FILTERS && meta == INITIAL_META
    {
      officers, filters, meta := [], NO_FILTERS, INITIAL_META;
    }

    /** `handleFilterChange` and the render it causes: the named filter takes the new value.
        A filter other than the search box fetches page 1 with the new filters at once; as
        `fetchOfficers` is rebuilt whenever the filters change, the mount effect fetches
        page 1 again, and the search effect arms its timer for one more such fetch. */
    method HandleFilterChange(name: FilterName, value: string)
      returns (fetches: seq<FetchRequest>, delayed: FetchRequest)
      modifies this`filters
      ensures filters == WithFilter(old(filters), name, value)
      ensures |fetches| == if name == Search then 1 else 2
      ensures forall k :: 0 <= k < |fetches| ==> fetches[k] == FetchRequest(1, filters)
      ensures delayed == FetchRequest(1, filters)
    {
      var newFilters := WithFilter(filters, name, value);
      filters := newFilters;
      fetches := [];
      if name != Search {
        fetches := fetches + [FetchRequest(1, newFilters)];
      }
      // the effect on [fetchOfficers]: `fetchOfficers()` with its defaults
      fetches := fetches + [FetchRequest(1, filters)];
      // the debounced effect on [filters.search, fetchOfficers]
      delayed := FetchRequest(1, filters);
    }

    /** `handleToggleStatus`: asks for the opposite status and, once the request has
        succeeded, shows it on that officer's rows; a failed request changes nothing. */
    method HandleToggleStatus(id: Id, currentStatus: bool, requestOk: bool) returns (request: StatusRequest)
      modifies this`officers
      ensures request == StatusRequest(id, !currentStatus)
      ensures requestOk ==> officers == Toggled(old(officers), id, !currentStatus)
      ensures !requestOk ==> officers == old(officers)
    {
      request := StatusRequest(id, !currentStatus);
      if requestOk {
        officers := Toggled(officers, id, !currentStatus);
      }
    }

    /** The end of `fetchOfficers`: a page received replaces the rows and the footer; a
        failed fetch keeps both. */
    method FetchCompleted(res: Option<OfficerPage>)
      modifies this`officers, this`meta
      ensures res.Some? ==> officers == res.value.data && meta == res.value.meta
      ensures res.None? ==> officers == old(officers) && meta == old(meta)
    {
      if res.Some? {
        officers, meta := res.value.data, res.value.meta;
      }
    }
  }
}
