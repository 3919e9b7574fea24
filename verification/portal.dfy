/** The departments, tabs and records behind the views, as an abstract
    store, and every view that changes it, reduced to its decisions: which
    check runs first, which error it answers with, and what it stores. */
module Portal {
  import opened Values
  import opened Text
  import Permissions
  import Columns
  import Payloads
  import Spreadsheet

  /** The acting user; only the role takes part in decisions. */
  datatype User = User(id: nat, role: string)

  datatype Department = Department(name: string, description: string, createdBy: Option<nat>)
  datatype Tab = Tab(department: nat, name: string, description: string, createdBy: Option<nat>)
  datatype Record = Record(tab: nat, data: Value, createdBy: Option<nat>, updatedBy: Option<nat>)

  /** The three tables, keyed by id; `nextId` is the next id the database
      hands out. */
  datatype Store = Store(
    departments: map<nat, Department>,
    tabs: map<nat, Tab>,
    records: map<nat, Record>,
    nextId: nat)

  /** The facts the schema keeps: every tab has its department, every record
      its tab, department names are unique, tab names are unique within a
      department, and ids are below the counter. */
  predicate Valid(s: Store) {
    && (forall t :: t in s.tabs ==> s.tabs[t].department in s.departments)
    && (forall r :: r in s.records ==> s.records[r].tab in s.tabs)
    && (forall d1, d2 :: d1 in s.departments && d2 in s.departments && d1 != d2 ==>
          s.departments[d1].name != s.departments[d2].name)
    && (forall t1, t2 :: t1 in s.tabs && t2 in s.tabs && t1 != t2 && s.tabs[t1].department == s.tabs[t2].department ==>
          s.tabs[t1].name != s.tabs[t2].name)
    && (forall d :: d in s.departments ==> d < s.nextId)
    && (forall t :: t in s.tabs ==> t < s.nextId)
    && (forall r :: r in s.records ==> r < s.nextId)
  }

  /** Why a request was turned down: a 400, except that `add_record` and
      `import_excel` show the reason on their form page instead. */
  datatype Reason = InvalidJson | NameRequired | AlreadyExists | ColumnRequired | NoFile | NotExcel | NothingEntered

  /** A view's answer: 403, 404, a refusal, `Failed` (an exception ended the
      request with a 500, or `import_excel` caught it and showed an error
      page), or success with a value. */
  datatype Reply<+T> = Denied | NotFound | Rejected(reason: Reason) | Failed | Done(value: T)

  datatype Outcome<+T> = Outcome(reply: Reply<T>, store: Store)

  /** A request body: text that is not JSON, or the decoded value. */
  datatype Body = Malformed | Json(value: Value)

  datatype Named = Named(id: nat, name: string, description: string)

  /** `has_permission(action, tab.department, tab)` for the tab `tabId`. */
  function Allowed(s: Store, u: User, action: string, tabId: nat): bool
    requires tabId in s.tabs
  {
    Permissions.HasPermission(u.role, action, Some(s.tabs[tabId].department), Some(tabId))
  }

  /** The same check for the tab a record belongs to. */
  function AllowedOnRecord(s: Store, u: User, action: string, recordId: nat): bool
    requires recordId in s.records
  {
    var tab := s.records[recordId].tab;
    Permissions.HasPermission(u.role, action, if tab in s.tabs then Some(s.tabs[tab].department) else None, Some(tab))
  }

  // ---------------------------------------------------------------------
  // Departments and tabs

  predicate DepartmentNameTaken(s: Store, name: string) {
    exists d :: d in s.departments && s.departments[d].name == name
  }

  /** Another tab of department `dept`, other than `except`, has this name. */
  predicate TabNameTaken(s: Store, dept: nat, name: string, except: Option<nat>) {
    exists t :: t in s.tabs && s.tabs[t].department == dept && s.tabs[t].name == name && except != Some(t)
  }

  /** `name` and `description` read and stripped, in that order; `None` when
      the body is not an object or either field is not a string. */
  function NameAndDescription(v: Value): Option<(string, string)> {
    if !v.Object? then None
    else match (Payloads.StrippedField(v.fields, "name"), Payloads.StrippedField(v.fields, "description"))
      case (Some(name), Some(description)) => Some((name, description))
      case _ => None
  }

  /** A department row with the next id. */
  function InsertDepartment(s: Store, d: Department): (s': Store)
    ensures s'.departments == s.departments[s.nextId := d]
    ensures s'.tabs == s.tabs && s'.records == s.records
    ensures Valid(s) && !DepartmentNameTaken(s, d.name) ==> Valid(s')
  {
    s.(departments := s.departments[s.nextId := d], nextId := s.nextId + 1)
  }

  /** A tab row with the next id. */
  function InsertTab(s: Store, t: Tab): (s': Store)
    ensures s'.tabs == s.tabs[s.nextId := t]
    ensures s'.departments == s.departments && s'.records == s.records
    ensures Valid(s) && t.department in s.departments && !TabNameTaken(s, t.department, t.name, None) ==> Valid(s')
  {
    s.(tabs := s.tabs[s.nextId := t], nextId := s.nextId + 1)
  }

  /** A tab row with a new name. */
  function RenameIn(s: Store, tabId: nat, name: string): (s': Store)
    requires tabId in s.tabs
    ensures s'.tabs == s.tabs[tabId := s.tabs[tabId].(name := name)]
    ensures s'.departments == s.departments && s'.records == s.records
    ensures Valid(s) && !TabNameTaken(s, s.tabs[tabId].department, name, Some(tabId)) ==> Valid(s')
  {
    s.(tabs := s.tabs[tabId := s.tabs[tabId].(name := name)])
  }

  /** `create_department` */
  function CreateDepartment(s: Store, u: User, body: Body): (o: Outcome<Named>)
    ensures !Permissions.CanManageTabs(u.role) ==> o == Outcome(Denied, s)
    ensures o.store != s ==> Permissions.CanManageTabs(u.role)
    ensures !o.reply.Done? ==> o.store == s
    ensures o.reply.Done? ==>
              && o.reply.value.name != []
              && !DepartmentNameTaken(s, o.reply.value.name)
              && (Valid(s) ==> o.reply.value.id !in s.departments)
              && o.store.departments == s.departments[o.reply.value.id :=
                   Department(o.reply.value.name, o.reply.value.description, Some(u.id))]
              && o.store.tabs == s.tabs && o.store.records == s.records
    ensures Permissions.CanManageTabs(u.role) && body.Malformed? ==> o == Outcome(Rejected(InvalidJson), s)
    ensures Permissions.CanManageTabs(u.role) && body.Json? && NameAndDescription(body.value).None? ==>
              o == Outcome(Failed, s)
    ensures Permissions.CanManageTabs(u.role) && body.Json? && NameAndDescription(body.value).Some? ==>
              var (name, description) := NameAndDescription(body.value).value;
              && (name == [] ==> o == Outcome(Rejected(NameRequired), s))
              && (name != [] && DepartmentNameTaken(s, name) ==> o == Outcome(Rejected(AlreadyExists), s))
              && (name != [] && !DepartmentNameTaken(s, name) ==>
                    o.reply == Done(Named(s.nextId, name, description)) && o.store.nextId == s.nextId + 1)
    ensures Valid(s) ==> Valid(o.store)
  {
    if !Permissions.CanManageTabs(u.role) then Outcome(Denied, s)
    else match body
      case Malformed => Outcome(Rejected(InvalidJson), s)
      case Json(v) =>
        match NameAndDescription(v)
        case None => Outcome(Failed, s)
        case Some((name, description)) =>
          if name == [] then Outcome(Rejected(NameRequired), s)
          else if DepartmentNameTaken(s, name) then Outcome(Rejected(AlreadyExists), s)
          else
            Outcome(Done(Named(s.nextId, name, description)),
                    InsertDepartment(s, Department(name, description, Some(u.id))))
  }

  /** `create_tab` */
  function CreateTab(s: Store, u: User, deptId: nat, body: Body): (o: Outcome<Named>)
    ensures !Permissions.CanManageTabs(u.role) ==> o == Outcome(Denied, s)
    ensures Permissions.CanManageTabs(u.role) && deptId !in s.departments ==> o == Outcome(NotFound, s)
    ensures o.store != s ==> Permissions.CanManageTabs(u.role)
    ensures !o.reply.Done? ==> o.store == s
    ensures o.reply.Done? ==>
              && deptId in s.departments
              && o.reply.value.name != []
              && !TabNameTaken(s, deptId, o.reply.value.name, None)
              && (Valid(s) ==> o.reply.value.id !in s.tabs)
              && o.store.tabs == s.tabs[o.reply.value.id :=
                   Tab(deptId, o.reply.value.name, o.reply.value.description, Some(u.id))]
              && o.store.departments == s.departments && o.store.records == s.records
    ensures Permissions.CanManageTabs(u.role) && deptId in s.departments && body.Malformed? ==>
              o == Outcome(Rejected(InvalidJson), s)
    ensures Permissions.CanManageTabs(u.role) && deptId in s.departments && body.Json? && NameAndDescription(body.value).None? ==>
              o == Outcome(Failed, s)
    ensures Permissions.CanManageTabs(u.role) && deptId in s.departments && body.Json? && NameAndDescription(body.value).Some? ==>
              var (name, description) := NameAndDescription(body.value).value;
              && (name == [] ==> o == Outcome(Rejected(NameRequired), s))
              && (name != [] && TabNameTaken(s, deptId, name, None) ==> o == Outcome(Rejected(AlreadyExists), s))
              && (name != [] && !TabNameTaken(s, deptId, name, None) ==>
                    o.reply == Done(Named(s.nextId, name, description)) && o.store.nextId == s.nextId + 1)
    ensures Valid(s) ==> Valid(o.store)
  {
    if !Permissions.CanManageTabs(u.role) then Outcome(Denied, s)
    else if deptId !in s.departments then Outcome(NotFound, s)
    else match body
      case Malformed => Outcome(Rejected(InvalidJson), s)
      case Json(v) =>
        match NameAndDescription(v)
        case None => Outcome(Failed, s)
        case Some((name, description)) =>
          if name == [] then Outcome(Rejected(NameRequired), s)
          else if TabNameTaken(s, deptId, name, None) then Outcome(Rejected(AlreadyExists), s)
          else
            Outcome(Done(Named(s.nextId, name, description)),
                    InsertTab(s, Tab(deptId, name, description, Some(u.id))))
  }

  /** `rename_tab` */
  function RenameTab(s: Store, u: User, tabId: nat, body: Body): (o: Outcome<Named>)
    ensures !Permissions.CanManageTabs(u.role) ==> o == Outcome(Denied, s)
    ensures Permissions.CanManageTabs(u.role) && tabId !in s.tabs ==> o == Outcome(NotFound, s)
    ensures o.store != s ==> Permissions.CanManageTabs(u.role)
    ensures !o.reply.Done? ==> o.store == s
    ensures o.reply.Done? ==>
              && tabId in s.tabs
              && o.reply.value.id == tabId
              && o.reply.value.name != []
              && !TabNameTaken(s, s.tabs[tabId].department, o.reply.value.name, Some(tabId))
              && o.store.tabs == s.tabs[tabId := s.tabs[tabId].(name := o.reply.value.name)]
              && o.store.departments == s.departments && o.store.records == s.records
              && o.store.nextId == s.nextId
    ensures Permissions.CanManageTabs(u.role) && tabId in s.tabs && body.Malformed? ==> o == Outcome(Rejected(InvalidJson), s)
    ensures (Permissions.CanManageTabs(u.role) && tabId in s.tabs && body.Json? &&
             (!body.value.Object? || Payloads.StrippedField(body.value.fields, "name").None?)) ==>
              o == Outcome(Failed, s)
    ensures (Permissions.CanManageTabs(u.role) && tabId in s.tabs && body.Json? && body.value.Object? &&
             Payloads.StrippedField(body.value.fields, "name").Some?) ==>
              var name := Payloads.StrippedField(body.value.fields, "name").value;
              var dept := s.tabs[tabId].department;
              && (name == [] ==> o == Outcome(Rejected(NameRequired), s))
              && (name != [] && TabNameTaken(s, dept, name, Some(tabId)) ==> o == Outcome(Rejected(AlreadyExists), s))
              && (name != [] && !TabNameTaken(s, dept, name, Some(tabId)) ==>
                    o.reply == Done(Named(tabId, name, s.tabs[tabId].description)))
    ensures Valid(s) ==> Valid(o.store)
  {
    if !Permissions.CanManageTabs(u.role) then Outcome(Denied, s)
    else if tabId !in s.tabs then Outcome(NotFound, s)
    else match body
      case Malformed => Outcome(Rejected(InvalidJson), s)
      case Json(v) =>
        if !v.Object? then Outcome(Failed, s)
        else match Payloads.StrippedField(v.fields, "name")
          case None => Outcome(Failed, s)
          case Some(name) =>
            var tab := s.tabs[tabId];
            if name == [] then Outcome(Rejected(NameRequired), s)
            else if TabNameTaken(s, tab.department, name, Some(tabId)) then Outcome(Rejected(AlreadyExists), s)
            else Outcome(Done(Named(tabId, name, tab.description)), RenameIn(s, tabId, name))
  }

  /** Renaming a tab to the name it already has succeeds and changes nothing:
      the tab itself is left out of the duplicate check. */
  lemma RenameToOwnName(s: Store, u: User, tabId: nat)
    requires Valid(s) && Permissions.CanManageTabs(u.role) && tabId in s.tabs
    requires s.tabs[tabId].name != [] && Strip(s.tabs[tabId].name) == s.tabs[tabId].name
    ensures var o := RenameTab(s, u, tabId, Json(Object(map["name" := Str(s.tabs[tabId].name)])));
            o.reply.Done? && o.store == s
  {
    var tab := s.tabs[tabId];
    assert !TabNameTaken(s, tab.department, tab.name, Some(tabId));
    assert s.tabs[tabId := tab.(name := tab.name)] == s.tabs;
  }

  /** A blank name, however much whitespace it has, is refused and stores nothing. */
  lemma BlankTabNameRefused(s: Store, u: User, deptId: nat, name: string)
    requires Permissions.CanManageTabs(u.role) && deptId in s.departments && AllSpace(name)
    ensures CreateTab(s, u, deptId, Json(Object(map["name" := Str(name)]))) == Outcome(Rejected(NameRequired), s)
  {
    var v := Object(map["name" := Str(name)]);
    assert Payloads.StrippedField(v.fields, "description") == Some([]);
  }

  /** `delete_tab`; the tab's records go with it. */
  function DeleteTab(s: Store, u: User, tabId: nat): (o: Outcome<string>)
    ensures !Permissions.CanManageTabs(u.role) ==> o == Outcome(Denied, s)
    ensures Permissions.CanManageTabs(u.role) && tabId !in s.tabs ==> o == Outcome(NotFound, s)
    ensures o.store != s ==> Permissions.CanManageTabs(u.role)
    ensures !o.reply.Done? ==> o.store == s
    ensures Permissions.CanManageTabs(u.role) && tabId in s.tabs ==> o.reply.Done?
    ensures o.reply.Done? ==>
              && tabId in s.tabs && o.reply.value == s.tabs[tabId].name
              && o.store.departments == s.departments && o.store.nextId == s.nextId
              && o.store.tabs.Keys == s.tabs.Keys - {tabId}
              && (forall t :: t in o.store.tabs ==> o.store.tabs[t] == s.tabs[t])
              && (forall r :: r in o.store.records ==> r in s.records && o.store.records[r] == s.records[r])
              && (forall r :: r in o.store.records ==> o.store.records[r].tab != tabId)
              && (forall r :: r in s.records && s.records[r].tab != tabId ==> r in o.store.records)
    ensures Valid(s) ==> Valid(o.store)
  {
    if !Permissions.CanManageTabs(u.role) then Outcome(Denied, s)
    else if tabId !in s.tabs then Outcome(NotFound, s)
    else
      Outcome(Done(s.tabs[tabId].name),
              s.(tabs := s.tabs - {tabId},
                 records := map r | r in s.records && s.records[r].tab != tabId :: s.records[r]))
  }

  /** The database's cascade when a department row is deleted: its tabs and
      their records go too. No view deletes departments. */
  function CascadeDeleteDepartment(s: Store, deptId: nat): (s': Store)
    ensures s'.departments == s.departments - {deptId}
    ensures s'.nextId == s.nextId
    ensures forall t :: t in s'.tabs ==> t in s.tabs && s'.tabs[t] == s.tabs[t] && s'.tabs[t].department != deptId
    ensures forall t :: t in s.tabs && s.tabs[t].department != deptId ==> t in s'.tabs
    ensures forall r :: r in s'.records ==> r in s.records && s'.records[r] == s.records[r]
    ensures forall r :: r in s.records && s.records[r].tab in s'.tabs ==> r in s'.records
    ensures forall r :: r in s.records && s.records[r].tab in s.tabs && s.tabs[s.records[r].tab].department == deptId ==>
              r !in s'.records
    ensures Valid(s) ==> Valid(s')
  {
    var tabs := map t | t in s.tabs && s.tabs[t].department != deptId :: s.tabs[t];
    s.(departments := s.departments - {deptId},
       tabs := tabs,
       records := map r | r in s.records && s.records[r].tab in tabs :: s.records[r])
  }

  // ---------------------------------------------------------------------
  // Records

  /** A new record row with the next id. */
  function NewRecord(s: Store, tabId: nat, data: Value, author: nat): (s': Store)
    ensures s'.records == s.records[s.nextId := Record(tabId, data, Some(author), None)]
    ensures s'.nextId == s.nextId + 1
    ensures s'.departments == s.departments && s'.tabs == s.tabs
    ensures Valid(s) && tabId in s.tabs ==> Valid(s')
  {
    s.(records := s.records[s.nextId := Record(tabId, data, Some(author), None)], nextId := s.nextId + 1)
  }

  /** A record's payload replaced, with the editor recorded. */
  function Rewrite(s: Store, recordId: nat, data: Value, author: nat): (s': Store)
    requires recordId in s.records
    ensures s'.records.Keys == s.records.Keys
    ensures s'.records[recordId].data == data && s'.records[recordId].tab == s.records[recordId].tab
    ensures forall r :: r in s.records && r != recordId ==> s'.records[r] == s.records[r]
    ensures s'.departments == s.departments && s'.tabs == s.tabs && s'.nextId == s.nextId
    ensures Valid(s) ==> Valid(s')
  {
    s.(records := s.records[recordId := s.records[recordId].(data := data, updatedBy := Some(author))])
  }

  /** `add_record` on POST, once the form fields have been gathered into
      `submitted`. */
  function AddRecord(s: Store, u: User, tabId: nat, submitted: Value): (o: Outcome<nat>)
    ensures tabId !in s.tabs ==> o == Outcome(NotFound, s)
    ensures tabId in s.tabs && !Allowed(s, u, "add", tabId) ==> o == Outcome(Denied, s)
    ensures o.store != s ==> tabId in s.tabs && Allowed(s, u, "add", tabId)
    ensures !o.reply.Done? ==> o.store == s
    ensures tabId in s.tabs && Allowed(s, u, "add", tabId) && !Truthy(submitted) ==>
              o == Outcome(Rejected(NothingEntered), s)
    ensures tabId in s.tabs && Allowed(s, u, "add", tabId) && Truthy(submitted) ==> o.reply.Done?
    ensures o.reply.Done? ==> (Valid(s) ==> o.reply.value !in s.records) && o.store == NewRecord(s, tabId, submitted, u.id)
    ensures Valid(s) ==> Valid(o.store)
  {
    if tabId !in s.tabs then Outcome(NotFound, s)
    else if !Allowed(s, u, "add", tabId) then Outcome(Denied, s)
    else if !Truthy(submitted) then Outcome(Rejected(NothingEntered), s)
    else Outcome(Done(s.nextId), NewRecord(s, tabId, submitted, u.id))
  }

  /** `edit_record` on POST: the decoded JSON replaces the payload outright.
      A JSON `null` decodes to `None`, which the non-nullable `data` column
      refuses when the record is saved; the view does not catch that error,
      so the request fails and nothing is stored. */
  function EditRecord(s: Store, u: User, recordId: nat, body: Body): (o: Outcome<Value>)
    ensures recordId !in s.records ==> o == Outcome(NotFound, s)
    ensures recordId in s.records && !AllowedOnRecord(s, u, "edit", recordId) ==> o == Outcome(Denied, s)
    ensures o.store != s ==> recordId in s.records && AllowedOnRecord(s, u, "edit", recordId)
    ensures !o.reply.Done? ==> o.store == s
    ensures recordId in s.records && AllowedOnRecord(s, u, "edit", recordId) ==>
              && (body.Malformed? ==> o == Outcome(Rejected(InvalidJson), s))
              && (body == Json(Null) ==> o == Outcome(Failed, s))
              && (body.Json? && body.value != Null ==> o.reply.Done?)
    ensures o.reply.Done? ==> body.Json? && body.value != Null && o.reply.value == body.value
                              && o.store == Rewrite(s, recordId, body.value, u.id)
    ensures Valid(s) ==> Valid(o.store)
  {
    if recordId !in s.records then Outcome(NotFound, s)
    else if !AllowedOnRecord(s, u, "edit", recordId) then Outcome(Denied, s)
    else match body
      case Malformed => Outcome(Rejected(InvalidJson), s)
      case Json(Null) => Outcome(Failed, s)
      case Json(v) => Outcome(Done(v), Rewrite(s, recordId, v, u.id))
  }

  /** `delete_record` and `api_delete_record`, which decide alike. */
  function DeleteRecord(s: Store, u: User, recordId: nat): (o: Outcome<nat>)
    ensures recordId !in s.records ==> o == Outcome(NotFound, s)
    ensures recordId in s.records && !AllowedOnRecord(s, u, "delete", recordId) ==> o == Outcome(Denied, s)
    ensures o.store != s ==> recordId in s.records && AllowedOnRecord(s, u, "delete", recordId)
    ensures !o.reply.Done? ==> o.store == s
    ensures o.reply.Done? ==> o.reply.value == recordId && o.store == s.(records := s.records - {recordId})
    ensures Valid(s) ==> Valid(o.store)
  {
    if recordId !in s.records then Outcome(NotFound, s)
    else if !AllowedOnRecord(s, u, "delete", recordId) then Outcome(Denied, s)
    else Outcome(Done(recordId), s.(records := s.records - {recordId}))
  }

  /** A record is deleted exactly when it exists and the user may delete in
      its tab; otherwise nothing is removed. */
  lemma DeleteOnlyWhenAllowed(s: Store, u: User, recordId: nat)
    ensures DeleteRecord(s, u, recordId).reply.Done? <==>
              recordId in s.records && AllowedOnRecord(s, u, "delete", recordId)
    ensures !DeleteRecord(s, u, recordId).reply.Done? ==> DeleteRecord(s, u, recordId).store == s
  {
  }

  /** Staff never delete a record, whichever department or tab it is in. */
  lemma StaffCannotDelete(s: Store, u: User, recordId: nat)
    requires u.role == "staff" && recordId in s.records
    ensures DeleteRecord(s, u, recordId) == Outcome(Denied, s)
  {
  }

  /** `after` is `before` with `column` set to `value` and nothing else changed. */
  predicate CellWritten(before: map<string, Value>, after: Value, column: string, value: Value) {
    && after.Object?
    && after.fields.Keys == before.Keys + {column}
    && after.fields[column] == value
    && (forall k :: k in before && k != column ==> after.fields[k] == before[k])
  }

  /** `update_cell` */
  function UpdateCell(s: Store, u: User, recordId: nat, body: Body): (o: Outcome<Value>)
    ensures recordId !in s.records ==> o == Outcome(NotFound, s)
    ensures recordId in s.records && !AllowedOnRecord(s, u, "edit", recordId) ==> o == Outcome(Denied, s)
    ensures o.store != s ==> recordId in s.records && AllowedOnRecord(s, u, "edit", recordId)
    ensures !o.reply.Done? ==> o.store == s
    ensures (recordId in s.records && AllowedOnRecord(s, u, "edit", recordId) && body.Json?
             && Payloads.ReadCellEdit(body.value).BlankColumn?) ==> o == Outcome(Rejected(ColumnRequired), s)
    ensures o.reply.Done? ==>
              && recordId in s.records && body.Json? && Payloads.ReadCellEdit(body.value).SetTo?
              && recordId in o.store.records
              && o.reply.value == Payloads.ReadCellEdit(body.value).value
              && CellWritten(AsObject(s.records[recordId].data), o.store.records[recordId].data,
                             Payloads.ReadCellEdit(body.value).column, o.reply.value)
              && (forall r :: r in s.records && r != recordId ==> r in o.store.records && o.store.records[r] == s.records[r])
              && o.store == Rewrite(s, recordId, o.store.records[recordId].data, u.id)
    ensures recordId in s.records && AllowedOnRecord(s, u, "edit", recordId) ==>
              && (body.Malformed? ==> o == Outcome(Rejected(InvalidJson), s))
              && (body.Json? && Payloads.ReadCellEdit(body.value).Unreadable? ==> o == Outcome(Failed, s))
              && (body.Json? && Payloads.ReadCellEdit(body.value).SetTo? ==> o.reply.Done?)
    ensures Valid(s) ==> Valid(o.store)
  {
    if recordId !in s.records then Outcome(NotFound, s)
    else if !AllowedOnRecord(s, u, "edit", recordId) then Outcome(Denied, s)
    else match body
      case Malformed => Outcome(Rejected(InvalidJson), s)
      case Json(v) =>
        match Payloads.ReadCellEdit(v)
        case Unreadable => Outcome(Failed, s)
        case BlankColumn => Outcome(Rejected(ColumnRequired), s)
        case SetTo(column, value) =>
          var data := Payloads.SetCell(s.records[recordId].data, column, value);
          Outcome(Done(value), Rewrite(s, recordId, Object(data), u.id))
  }

  /** `api_create_record` */
  function ApiCreateRecord(s: Store, u: User, tabId: nat, body: Body): (o: Outcome<(nat, Value)>)
    ensures tabId !in s.tabs ==> o == Outcome(NotFound, s)
    ensures tabId in s.tabs && !Allowed(s, u, "add", tabId) ==> o == Outcome(Denied, s)
    ensures o.store != s ==> tabId in s.tabs && Allowed(s, u, "add", tabId)
    ensures !o.reply.Done? ==> o.store == s
    ensures o.reply.Done? ==>
              && body.Json?
              && (Valid(s) ==> o.reply.value.0 !in s.records)
              && o.store == NewRecord(s, tabId, o.reply.value.1, u.id)
              && (body.value.Object? ==> o.reply.value.1.Object? && "id" !in o.reply.value.1.fields)
              && Payloads.CreatePayload(body.value).Some?
              && o.reply.value == (s.nextId, Payloads.CreatePayload(body.value).value)
    ensures tabId in s.tabs && Allowed(s, u, "add", tabId) ==>
              && (body.Malformed? ==> o == Outcome(Rejected(InvalidJson), s))
              && (body.Json? && Payloads.CreatePayload(body.value).None? ==> o == Outcome(Failed, s))
              && (body.Json? && Payloads.CreatePayload(body.value).Some? ==> o.reply.Done?)
    ensures Valid(s) ==> Valid(o.store)
  {
    if tabId !in s.tabs then Outcome(NotFound, s)
    else if !Allowed(s, u, "add", tabId) then Outcome(Denied, s)
    else match body
      case Malformed => Outcome(Rejected(InvalidJson), s)
      case Json(v) =>
        match Payloads.CreatePayload(v)
        case None => Outcome(Failed, s)
        case Some(payload) =>
          Payloads.CreateDropsId(if v.Object? then v else Object(map[]));
          Outcome(Done((s.nextId, payload)), NewRecord(s, tabId, payload, u.id))
  }

  /** `after` is `before` patched with `incoming`: union of keys, incoming
      values win, the rest kept. */
  predicate Merged(before: map<string, Value>, after: Value, incoming: map<string, Value>) {
    && after.Object?
    && after.fields.Keys == before.Keys + incoming.Keys
    && (forall k :: k in incoming ==> after.fields[k] == incoming[k])
    && (forall k :: k in before && k !in incoming ==> after.fields[k] == before[k])
  }

  /** `api_update_record` */
  function ApiUpdateRecord(s: Store, u: User, recordId: nat, body: Body): (o: Outcome<(nat, Value)>)
    ensures recordId !in s.records ==> o == Outcome(NotFound, s)
    ensures recordId in s.records && !AllowedOnRecord(s, u, "edit", recordId) ==> o == Outcome(Denied, s)
    ensures o.store != s ==> recordId in s.records && AllowedOnRecord(s, u, "edit", recordId)
    ensures !o.reply.Done? ==> o.store == s
    ensures o.reply.Done? ==> recordId in s.records && recordId in o.store.records && body.Json?
    ensures o.reply.Done? && body.value.Object? ==>
              Merged(AsObject(s.records[recordId].data), o.store.records[recordId].data, body.value.fields)
    ensures o.reply.Done? && !body.value.Object? ==>
              o.store.records[recordId].data == Object(AsObject(s.records[recordId].data))
    ensures o.reply.Done? ==> o.reply.value == (recordId, o.store.records[recordId].data)
    ensures o.reply.Done? ==> o.store == Rewrite(s, recordId, o.reply.value.1, u.id)
    ensures recordId in s.records && AllowedOnRecord(s, u, "edit", recordId) ==>
              && (body.Malformed? ==> o == Outcome(Rejected(InvalidJson), s))
              && (body.Json? && Payloads.PatchPayload(s.records[recordId].data, body.value).None? ==> o == Outcome(Failed, s))
              && (body.Json? && Payloads.PatchPayload(s.records[recordId].data, body.value).Some? ==> o.reply.Done?)
    ensures Valid(s) ==> Valid(o.store)
  {
    if recordId !in s.records then Outcome(NotFound, s)
    else if !AllowedOnRecord(s, u, "edit", recordId) then Outcome(Denied, s)
    else match body
      case Malformed => Outcome(Rejected(InvalidJson), s)
      case Json(v) =>
        match Payloads.PatchPayload(s.records[recordId].data, v)
        case None => Outcome(Failed, s)
        case Some(data) =>
          var s' := Rewrite(s, recordId, Object(data), u.id);
          Outcome(Done((recordId, Object(data))), s')
  }

  // ---------------------------------------------------------------------
  // Spreadsheet import

  /** An uploaded file: its name, and its rows, or `None` when the workbook
      cannot be read. */
  datatype Upload = Upload(name: string, sheet: Option<seq<Spreadsheet.Row>>)

  predicate EndsWith(s: string, suffix: string) {
    |suffix| <= |s| && s[|s| - |suffix|..] == suffix
  }

  /** The rows `start`, `start + 1`, ... made from `payloads`. */
  function NewRows(start: nat, tabId: nat, author: nat, payloads: seq<map<string, Value>>): (rows: map<nat, Record>)
    ensures forall id :: id in rows <==> start <= id < start + |payloads|
    ensures forall id :: start <= id < start + |payloads| ==>
              rows[id] == Record(tabId, Object(payloads[id - start]), Some(author), None)
  {
    if payloads == [] then map[]
    else
      var n := |payloads| - 1;
      NewRows(start, tabId, author, payloads[..n])[start + n := Record(tabId, Object(payloads[n]), Some(author), None)]
  }

  /** One record per payload, in order, with consecutive new ids. */
  function AppendRecords(s: Store, tabId: nat, author: nat, payloads: seq<map<string, Value>>): (s': Store)
    ensures s'.nextId == s.nextId + |payloads|
    ensures s'.departments == s.departments && s'.tabs == s.tabs
    ensures forall r :: r in s.records ==> r in s'.records
    ensures (forall r :: r in s.records ==> r < s.nextId) ==>
              forall r :: r in s.records ==> s'.records[r] == s.records[r]
    ensures forall i :: 0 <= i < |payloads| ==>
              s.nextId + i in s'.records && s'.records[s.nextId + i] == Record(tabId, Object(payloads[i]), Some(author), None)
    ensures forall r :: r in s'.records ==> r in s.records || s.nextId <= r < s.nextId + |payloads|
    ensures Valid(s) && tabId in s.tabs ==> Valid(s')
  {
    var added := NewRows(s.nextId, tabId, author, payloads);
    s.(records := s.records + added, nextId := s.nextId + |payloads|)
  }

  /** `after` is `before` with one new record per row of `rows`, numbered
      from `before.nextId` in row order, each holding that row's payload, and
      with every earlier record left as it was. */
  predicate RowsImported(before: Store, after: Store, tabId: nat, author: nat, rows: seq<Spreadsheet.Row>) {
    && after.nextId == before.nextId + |rows|
    && after.departments == before.departments && after.tabs == before.tabs
    && (forall i :: 0 <= i < |rows| ==>
          before.nextId + i in after.records &&
          after.records[before.nextId + i] == Record(tabId, Object(Spreadsheet.NormalizeRow(i, rows[i])), Some(author), None))
    && (forall r :: r in after.records ==> r in before.records || before.nextId <= r < before.nextId + |rows|)
    && (Valid(before) ==> forall r :: r in before.records ==> r in after.records && after.records[r] == before.records[r])
  }

  /** `import_excel` on POST with `import_excel_data`: checks in the view's
      order, then one record per row. */
  method ImportExcel(s: Store, u: User, tabId: nat, file: Option<Upload>) returns (o: Outcome<nat>)
    ensures tabId !in s.tabs ==> o == Outcome(NotFound, s)
    ensures tabId in s.tabs && !Allowed(s, u, "add", tabId) ==> o == Outcome(Denied, s)
    ensures o.store != s ==> tabId in s.tabs && Allowed(s, u, "add", tabId)
    ensures !o.reply.Done? ==> o.store == s
    ensures tabId in s.tabs && Allowed(s, u, "add", tabId) && file.None? ==> o == Outcome(Rejected(NoFile), s)
    ensures tabId in s.tabs && Allowed(s, u, "add", tabId) && file.Some? ==>
              var excel := EndsWith(file.value.name, ".xlsx") || EndsWith(file.value.name, ".xls");
              && (!excel ==> o == Outcome(Rejected(NotExcel), s))
              && (excel && file.value.sheet.None? ==> o == Outcome(Failed, s))
              && (excel && file.value.sheet.Some? ==> o.reply.Done?)
    ensures o.reply.Done? ==> && file.Some? && file.value.sheet.Some?
                              && (EndsWith(file.value.name, ".xlsx") || EndsWith(file.value.name, ".xls"))
                              && o.reply.value == |file.value.sheet.value|
                              && RowsImported(s, o.store, tabId, u.id, file.value.sheet.value)
    ensures Valid(s) ==> Valid(o.store)
  {
    if tabId !in s.tabs {
      return Outcome(NotFound, s);
    }
    if !Allowed(s, u, "add", tabId) {
      return Outcome(Denied, s);
    }
    if file.None? {
      return Outcome(Rejected(NoFile), s);
    }
    if !(EndsWith(file.value.name, ".xlsx") || EndsWith(file.value.name, ".xls")) {
      return Outcome(Rejected(NotExcel), s);
    }
    match file.value.sheet {
      case None =>
        o := Outcome(Failed, s);
      case Some(rows) =>
        var s', count := ImportRows(s, tabId, u.id, rows);
        o := Outcome(Done(count), s');
    }
  }

  /** The part of `import_excel` after the checks: every row converted and
      stored as a new record of the tab, authored by `author`. */
  method ImportRows(s: Store, tabId: nat, author: nat, rows: seq<Spreadsheet.Row>) returns (s': Store, count: nat)
    ensures count == |rows|
    ensures RowsImported(s, s', tabId, author, rows)
    ensures Valid(s) && tabId in s.tabs ==> Valid(s')
  {
    var payloads;
    payloads, count := Spreadsheet.NormalizeRows(rows);
    s' := AppendRecords(s, tabId, author, payloads);
    AppendedRowsImported(s, tabId, author, rows, payloads);
  }

  lemma AppendedRowsImported(s: Store, tabId: nat, author: nat, rows: seq<Spreadsheet.Row>, payloads: seq<map<string, Value>>)
    requires |payloads| == |rows|
    requires forall i :: 0 <= i < |rows| ==> payloads[i] == Spreadsheet.NormalizeRow(i, rows[i])
    ensures RowsImported(s, AppendRecords(s, tabId, author, payloads), tabId, author, rows)
  {
    var s' := AppendRecords(s, tabId, author, payloads);
    forall i | 0 <= i < |rows|
      ensures s.nextId + i in s'.records
      ensures s'.records[s.nextId + i] == Record(tabId, Object(Spreadsheet.NormalizeRow(i, rows[i])), Some(author), None)
    {
      assert s'.records[s.nextId + i] == Record(tabId, Object(payloads[i]), Some(author), None);
    }
  }

  // ---------------------------------------------------------------------
  // The grid feed

  datatype Grid = Grid(rows: seq<map<string, Value>>, columns: seq<string>, canEdit: bool, canDelete: bool)

  /** `listing` is what `tab.records.all()` returns for tab `tabId`: each
      entry is a record of that tab with its stored payload, and every record
      of the tab is listed. */
  predicate ListsTab(s: Store, tabId: nat, listing: seq<Columns.StoredRecord>) {
    && (forall i :: 0 <= i < |listing| ==>
          listing[i].id in s.records && s.records[listing[i].id].tab == tabId && s.records[listing[i].id].data == listing[i].data)
    && (forall r :: r in s.records && s.records[r].tab == tabId ==> exists i :: 0 <= i < |listing| && listing[i].id == r)
  }

  /** Some record of tab `tabId` has an object payload with key `k`. */
  predicate TabHasKey(s: Store, tabId: nat, k: string) {
    exists r :: r in s.records && s.records[r].tab == tabId && s.records[r].data.Object? && k in s.records[r].data.fields
  }

  /** `api_fetch_records`; `listing` is the tab's records in the order the
      database lists them. Nothing is stored. */
  method ApiFetchRecords(s: Store, u: User, tabId: nat, listing: seq<Columns.StoredRecord>) returns (reply: Reply<Grid>)
    ensures tabId !in s.tabs ==> reply == NotFound
    ensures tabId in s.tabs && !Allowed(s, u, "view", tabId) ==> reply == Denied
    ensures tabId in s.tabs && Allowed(s, u, "view", tabId) ==> reply.Done?
    ensures reply.Done? ==>
              && StrictlySorted(reply.value.columns)
              && Elems(reply.value.columns) == {"id"} + Columns.PayloadKeys(listing)
              && |reply.value.rows| == |listing|
              && (forall i :: 0 <= i < |listing| ==> reply.value.rows[i] == Columns.FlattenRow(listing[i]))
              && reply.value.canEdit == Allowed(s, u, "edit", tabId)
              && reply.value.canDelete == Allowed(s, u, "delete", tabId)
    ensures reply.Done? && ListsTab(s, tabId, listing) ==>
              forall k :: k in Elems(reply.value.columns) <==> k == "id" || TabHasKey(s, tabId, k)
  {
    if tabId !in s.tabs {
      return NotFound;
    }
    if !Allowed(s, u, "view", tabId) {
      return Denied;
    }
    var columns := Columns.FetchColumns(listing);
    var rows := Columns.FetchRows(listing);
    reply := Done(Grid(rows, columns, Allowed(s, u, "edit", tabId), Allowed(s, u, "delete", tabId)));
    if ListsTab(s, tabId, listing) {
      forall k ensures k in Columns.PayloadKeys(listing) <==> TabHasKey(s, tabId, k) {
        ListedKeys(s, tabId, listing, k);
      }
    }
  }

  lemma ListedKeys(s: Store, tabId: nat, listing: seq<Columns.StoredRecord>, k: string)
    requires ListsTab(s, tabId, listing)
    ensures k in Columns.PayloadKeys(listing) <==> TabHasKey(s, tabId, k)
  {
    Columns.PayloadKeysMeaning(listing, k);
    if TabHasKey(s, tabId, k) {
      var r :| r in s.records && s.records[r].tab == tabId && s.records[r].data.Object? && k in s.records[r].data.fields;
      var i :| 0 <= i < |listing| && listing[i].id == r;
      assert listing[i].data.Object? && k in listing[i].data.fields;
    }
    if k in Columns.PayloadKeys(listing) {
      var i :| 0 <= i < |listing| && listing[i].data.Object? && k in listing[i].data.fields;
      var r := listing[i].id;
      assert r in s.records && s.records[r].tab == tabId && s.records[r].data.Object? && k in s.records[r].data.fields;
    }
  }
}
