/** The chore tables (custom_components/nestquest/core/schema.py) and the statements of the data-access
    objects over them (dao_rules.py, dao_instances.py, dao_children.py), each transaction one step. */
module Tables {
  import opened Options
  import RuleCodec
  import IsoDates

  /** A date by its day number; the stored texts order the same way (module IsoDates). */
  type Day = int

  const QUEST_WINDOWS := {"morning", "afternoon", "evening"}

  type Rule = RuleCodec.ScheduleRuleStorage

  datatype Child = Child(name: string, isActive: bool)
  datatype Definition = Definition(title: string, rule: nat, isActive: bool)
  datatype Instance = Instance(
    definition: nat, child: nat, window: string, dueDate: Day, dueTime: Option<string>, generatedAt: string)

  datatype EventType = Completed | Uncompleted

  /** A row of the log. Its id is its place, from 1. */
  datatype LogEvent = LogEvent(
    instance: nat, child: nat, kind: EventType, source: string, userId: Option<string>, tapped: Option<nat>,
    occurredAt: string, wasOnTime: Option<bool>)

  /** `next…`: the ids AUTOINCREMENT gives next, which no row ever had. */
  datatype Db = Db(
    children: map<nat, Child>, rules: map<nat, Rule>, definitions: map<nat, Definition>,
    assignees: set<(nat, nat)>, windows: map<(nat, string), Option<string>>,
    instances: map<nat, Instance>, events: seq<LogEvent>,
    nextChild: nat, nextRule: nat, nextDefinition: nat, nextInstance: nat)

  const EMPTY := Db(map[], map[], map[], {}, map[], map[], [], 1, 1, 1, 1)

  // ----- reading

  predicate HasEvent(events: seq<LogEvent>, i: nat) {
    exists k :: 0 <= k < |events| && events[k].instance == i
  }

  predicate HasKey(x: Instance, definition: nat, child: nat, due: Day, window: string) {
    x.definition == definition && x.child == child && x.dueDate == due && x.window == window
  }

  /** The row of a key among the ids below `n`. */
  function Lookup(rows: map<nat, Instance>, n: nat, definition: nat, child: nat, due: Day,
      window: string): (r: Option<nat>)
    ensures r.Some? ==> r.value in rows && r.value < n && HasKey(rows[r.value], definition, child, due, window)
    ensures r.None? ==> forall i :: i in rows && i < n ==> !HasKey(rows[i], definition, child, due, window)
  {
    if n == 0 then None
    else if n - 1 in rows && HasKey(rows[n - 1], definition, child, due, window) then Some(n - 1)
    else Lookup(rows, n - 1, definition, child, due, window)
  }

  /** `get_latest_for_instance`: the place of the instance's last event among the first `n`. */
  function Latest(events: seq<LogEvent>, n: nat, i: nat): (r: Option<nat>)
    requires n <= |events|
    ensures r.Some? ==> r.value < n && events[r.value].instance == i
    ensures r.Some? ==> forall k :: r.value < k < n ==> events[k].instance != i
    ensures r.None? ==> forall k :: 0 <= k < n ==> events[k].instance != i
  {
    if n == 0 then None
    else if events[n - 1].instance == i then Some(n - 1)
    else Latest(events, n - 1, i)
  }

  predicate IsActiveChild(db: Db, child: nat) {
    child in db.children && db.children[child].isActive
  }

  /** The join `upsert_if_valid` asks: a row of this tuple may be written. */
  predicate Materializable(db: Db, definition: nat, child: nat, window: string, dueTime: Option<string>) {
    && definition in db.definitions && db.definitions[definition].isActive
    && IsActiveChild(db, child)
    && (definition, child) in db.assignees
    && (definition, window) in db.windows && db.windows[(definition, window)] == dueTime
  }

  predicate IsTime(s: string) {
    |s| == 5 && s[2] == ':' && IsoDates.AllDigits(s[..2]) && IsoDates.AllDigits(s[3..])
    && IsoDates.Number(s[..2]) <= 23 && IsoDates.Number(s[3..]) <= 59
  }

  predicate IsRuleRow(r: Rule) {
    && IsoDates.ParseDate(r.startDate).Some?
    && (r.endDate.Some? ==> IsoDates.ParseDate(r.endDate.value).Some?)
    && RuleCodec.SchemaAccepts(r)
  }

  // ----- instances

  function Max(a: int, b: int): int { if a < b then b else a }

  /** INSERT … ON CONFLICT DO UPDATE on the instance key. */
  function Written(db: Db, x: Instance): Db {
    match Lookup(db.instances, db.nextInstance, x.definition, x.child, x.dueDate, x.window)
    case Some(i) =>
      db.(instances := db.instances[i := db.instances[i].(dueTime := x.dueTime, generatedAt := x.generatedAt)])
    case None => db.(instances := db.instances[db.nextInstance := x], nextInstance := db.nextInstance + 1)
  }

  predicate IsImmutable(db: Db, x: Instance) {
    var found := Lookup(db.instances, db.nextInstance, x.definition, x.child, x.dueDate, x.window);
    found.Some? && HasEvent(db.events, found.value)
  }

  datatype Upserted = Row(db: Db) | Skipped | Refused

  /** `today`: the household-local date read under the lock. */
  function Upsert(db: Db, x: Instance, today: Day): Upserted {
    if x.window !in QUEST_WINDOWS || x.dueDate < today then Refused
    else if x.definition !in db.definitions then Refused
    else if (x.definition, x.child) !in db.assignees then Refused
    else if IsImmutable(db, x) then Refused
    else Row(Written(db, x))
  }

  function UpsertIfValid(db: Db, x: Instance, today: Day): Upserted {
    if x.window !in QUEST_WINDOWS || x.dueDate < today then Refused
    else if !Materializable(db, x.definition, x.child, x.window, x.dueTime) then Skipped
    else if IsImmutable(db, x) then Skipped
    else Row(Written(db, x))
  }

  datatype Scope = OfDefinition(definition: nat) | OfChild(child: nat)

  predicate InScope(x: Instance, scope: Scope) {
    match scope
    case OfDefinition(d) => x.definition == d
    case OfChild(c) => x.child == c
  }

  predicate Doomed(db: Db, i: nat, scope: Scope, cutoff: Day)
    requires i in db.instances
  {
    InScope(db.instances[i], scope) && cutoff <= db.instances[i].dueDate && !HasEvent(db.events, i)
  }

  /** Both forms of `delete_future_uncompleted`; the cutoff is not backdated below today. */
  function DeleteFuture(db: Db, scope: Scope, cutoff: Day, today: Day): Db {
    db.(instances := map i | i in db.instances && !Doomed(db, i, scope, Max(cutoff, today)) :: db.instances[i])
  }

  // ----- the log

  predicate MayAppend(db: Db, e: LogEvent) {
    && e.source in {"user", "panel"}
    && (e.source == "user" ==> e.userId.Some? && e.userId.value != "" && e.tapped.None?)
    && (e.source == "panel" ==> e.userId.None? && e.tapped.Some?)
    && (e.kind == Completed ==> e.wasOnTime.Some?)
    && e.instance in db.instances && db.instances[e.instance].child == e.child
    && e.child in db.children && (e.tapped.Some? ==> e.tapped.value in db.children)
  }

  function Append(db: Db, e: LogEvent): Option<Db> {
    if MayAppend(db, e) then Some(db.(events := db.events + [e])) else None
  }

  // ----- rules, definitions, children

  function CreateRule(db: Db, rule: Rule): Option<Db> {
    if IsRuleRow(rule) then Some(db.(rules := db.rules[db.nextRule := rule], nextRule := db.nextRule + 1)) else None
  }

  function UpdateRule(db: Db, id: nat, rule: Rule): Option<Db> {
    if !IsRuleRow(rule) then None
    else if id in db.rules then Some(db.(rules := db.rules[id := rule]))
    else Some(db)
  }

  predicate IsReferenced(db: Db, rule: nat) {
    exists d :: d in db.definitions && db.definitions[d].rule == rule
  }

  function DeleteRuleIfUnreferenced(db: Db, rule: nat): Db {
    if IsReferenced(db, rule) then db else db.(rules := db.rules - {rule})
  }

  /** INSERTs of assignee links, in order; a link already there violates the primary key. */
  function InsertLinks(links: set<(nat, nat)>, definition: nat, children: seq<nat>): Option<set<(nat, nat)>>
    decreases |children|
  {
    if children == [] then Some(links)
    else if (definition, children[0]) in links then None
    else InsertLinks(links + {(definition, children[0])}, definition, children[1..])
  }

  /** INSERTs of window declarations, in order. */
  function InsertWindows(
    windows: map<(nat, string), Option<string>>, definition: nat, added: seq<(string, Option<string>)>)
    : Option<map<(nat, string), Option<string>>>
    decreases |added|
  {
    if added == [] then Some(windows)
    else
      var (window, dueTime) := added[0];
      if window !in QUEST_WINDOWS || (dueTime.Some? && !IsTime(dueTime.value)) || (definition, window) in windows
      then None
      else InsertWindows(windows[(definition, window) := dueTime], definition, added[1..])
  }

  predicate AllActive(db: Db, children: seq<nat>) {
    forall i :: 0 <= i < |children| ==> IsActiveChild(db, children[i])
  }

  function CreateDefinition(db: Db, title: string, rule: nat, isActive: bool, children: seq<nat>): Option<Db> {
    if rule !in db.rules || !AllActive(db, children) then None
    else
      var links := InsertLinks(db.assignees, db.nextDefinition, children);
      if links.None? then None
      else
        Some(db.(definitions := db.definitions[db.nextDefinition := Definition(title, rule, isActive)],
                 assignees := links.value, nextDefinition := db.nextDefinition + 1))
  }

  function CreateWithRuleAndWindows(
    db: Db, title: string, rule: Rule, children: seq<nat>, windows: seq<(string, Option<string>)>): Option<Db>
  {
    if !AllActive(db, children) then None
    else
      var ruled := CreateRule(db, rule);
      if ruled.None? then None
      else
        var made := CreateDefinition(ruled.value, title, db.nextRule, true, children);
        if made.None? then None
        else
          var declared := InsertWindows(made.value.windows, db.nextDefinition, windows);
          if declared.None? then None else Some(made.value.(windows := declared.value))
  }

  function WithoutLinks(links: set<(nat, nat)>, definition: nat, keep: set<nat>): set<(nat, nat)> {
    set p | p in links && (p.0 != definition || p.1 in keep)
  }

  /** The children not yet linked, in order. */
  function Missing(links: set<(nat, nat)>, definition: nat, children: seq<nat>): seq<nat> {
    if children == [] then []
    else
      var rest := Missing(links, definition, children[1..]);
      if (definition, children[0]) in links then rest else [children[0]] + rest
  }

  function ReplaceLinks(links: set<(nat, nat)>, definition: nat, children: seq<nat>): Option<set<(nat, nat)>> {
    InsertLinks(WithoutLinks(links, definition, set c | c in children), definition,
        Missing(links, definition, children))
  }

  function WithoutWindows(windows: map<(nat, string), Option<string>>, definition: nat)
    : map<(nat, string), Option<string>>
  {
    map p | p in windows && p.0 != definition :: windows[p]
  }

  datatype Edit = Edit(
    title: Option<string>, rule: Option<Rule>,
    windows: Option<seq<(string, Option<string>)>>, children: Option<seq<nat>>)

  /** All of an edit, or nothing. */
  function EditDefinition(db: Db, definition: nat, edit: Edit): Option<Db> {
    if definition !in db.definitions then None
    else if edit.children.Some? && !AllActive(db, edit.children.value) then None
    else
      var was := db.definitions[definition];
      var titled := if edit.title.None? then db
                    else db.(definitions := db.definitions[definition := was.(title := edit.title.value)]);
      var ruled := if edit.rule.None? then Some(titled) else UpdateRule(titled, was.rule, edit.rule.value);
      var declared := if edit.windows.None? then Some(db.windows)
                      else InsertWindows(WithoutWindows(db.windows, definition), definition, edit.windows.value);
      var linked := if edit.children.None? then Some(db.assignees)
                    else ReplaceLinks(db.assignees, definition, edit.children.value);
      if ruled.None? || declared.None? || linked.None? then None
      else Some(ruled.value.(windows := declared.value, assignees := linked.value))
  }

  function SetActive(db: Db, definition: nat, isActive: bool): Db {
    if definition !in db.definitions then db
    else db.(definitions := db.definitions[definition := db.definitions[definition].(isActive := isActive)])
  }

  predicate HasHistory(db: Db, definition: nat) {
    exists k :: 0 <= k < |db.events| && db.events[k].instance in db.instances
                && db.instances[db.events[k].instance].definition == definition
  }

  datatype Deletion = Absent | Kept | Deleted(db: Db)

  function DeleteIfNoHistory(db: Db, definition: nat): Deletion {
    if definition !in db.definitions then Absent
    else if HasHistory(db, definition) then Kept
    else
      var rule := db.definitions[definition].rule;
      Deleted(DeleteRuleIfUnreferenced(
                db.(instances := (
                      map i | i in db.instances && db.instances[i].definition != definition :: db.instances[i]),
                    assignees := WithoutLinks(db.assignees, definition, {}),
                    windows := WithoutWindows(db.windows, definition),
                    definitions := db.definitions - {definition}), rule))
  }

  function AddAssignee(db: Db, definition: nat, child: nat): Option<Db> {
    if !IsActiveChild(db, child) || definition !in db.definitions then None
    else Some(db.(assignees := db.assignees + {(definition, child)}))
  }

  function RemoveAssignee(db: Db, definition: nat, child: nat): Db {
    db.(assignees := db.assignees - {(definition, child)})
  }

  function UpsertWindow(db: Db, definition: nat, window: string, dueTime: Option<string>): Option<Db> {
    if window !in QUEST_WINDOWS || (dueTime.Some? && !IsTime(dueTime.value)) || definition !in db.definitions then None
    else Some(db.(windows := db.windows[(definition, window) := dueTime]))
  }

  function RemoveWindow(db: Db, definition: nat, window: string): Db {
    db.(windows := db.windows - {(definition, window)})
  }

  function CreateChild(db: Db, child: Child): Db {
    db.(children := db.children[db.nextChild := child], nextChild := db.nextChild + 1)
  }

  function SetChildActive(db: Db, child: nat, isActive: bool): Db {
    if child !in db.children then db
    else db.(children := db.children[child := db.children[child].(isActive := isActive)])
  }

  // ----- one step

  datatype Op =
    | UpsertOp(row: Instance, today: Day)
    | UpsertIfValidOp(row: Instance, today: Day)
    | DeleteFutureOp(scope: Scope, cutoff: Day, today: Day)
    | AppendOp(event: LogEvent)
    | CreateRuleOp(rule: Rule)
    | UpdateRuleOp(id: nat, rule: Rule)
    | DeleteRuleOp(id: nat)
    | CreateDefinitionOp(title: string, ruleId: nat, isActive: bool, assignedTo: seq<nat>)
    | CreateWithRuleOp(title: string, rule: Rule, assignedTo: seq<nat>, windows: seq<(string, Option<string>)>)
    | EditOp(definition: nat, edit: Edit)
    | SetActiveOp(definition: nat, isActive: bool)
    | DeleteDefinitionOp(definition: nat)
    | AddAssigneeOp(definition: nat, child: nat)
    | RemoveAssigneeOp(definition: nat, child: nat)
    | UpsertWindowOp(definition: nat, window: string, dueTime: Option<string>)
    | RemoveWindowOp(definition: nat, window: string)
    | CreateChildOp(record: Child)
    | SetChildActiveOp(child: nat, isActive: bool)

  function Or(made: Option<Db>, db: Db): Db {
    if made.Some? then made.value else db
  }

  /** A refused operation rolls back: nothing changes. */
  function Next(db: Db, op: Op): Db {
    match op
    case UpsertOp(x, today) => var u := Upsert(db, x, today); if u.Row? then u.db else db
    case UpsertIfValidOp(x, today) => var u := UpsertIfValid(db, x, today); if u.Row? then u.db else db
    case DeleteFutureOp(scope, cutoff, today) => DeleteFuture(db, scope, cutoff, today)
    case AppendOp(e) => Or(Append(db, e), db)
    case CreateRuleOp(rule) => Or(CreateRule(db, rule), db)
    case UpdateRuleOp(id, rule) => Or(UpdateRule(db, id, rule), db)
    case DeleteRuleOp(id) => DeleteRuleIfUnreferenced(db, id)
    case CreateDefinitionOp(title, rule, isActive, assignedTo) =>
      Or(CreateDefinition(db, title, rule, isActive, assignedTo), db)
    case CreateWithRuleOp(title, rule, assignedTo, windows) =>
      Or(CreateWithRuleAndWindows(db, title, rule, assignedTo, windows), db)
    case EditOp(d, edit) => Or(EditDefinition(db, d, edit), db)
    case SetActiveOp(d, isActive) => SetActive(db, d, isActive)
    case DeleteDefinitionOp(d) => var r := DeleteIfNoHistory(db, d); if r.Deleted? then r.db else db
    case AddAssigneeOp(d, child) => Or(AddAssignee(db, d, child), db)
    case RemoveAssigneeOp(d, child) => RemoveAssignee(db, d, child)
    case UpsertWindowOp(d, window, dueTime) => Or(UpsertWindow(db, d, window, dueTime), db)
    case RemoveWindowOp(d, window) => RemoveWindow(db, d, window)
    case CreateChildOp(child) => CreateChild(db, child)
    case SetChildActiveOp(child, isActive) => SetChildActive(db, child, isActive)
  }

  function Exec(db: Db, run: seq<Op>): Db
    decreases |run|
  {
    if run == [] then db else Exec(Next(db, run[0]), run[1..])
  }

  // ----- what every operation keeps

  ghost predicate EventFits(e: LogEvent, instances: map<nat, Instance>, children: map<nat, Child>) {
    && e.source in {"user", "panel"}
    && (e.source == "user" ==> e.userId.Some? && e.tapped.None?)
    && (e.source == "panel" ==> e.userId.None? && e.tapped.Some?)
    && (e.kind == Completed ==> e.wasOnTime.Some?)
    && e.instance in instances && instances[e.instance].child == e.child
    && e.child in children && (e.tapped.Some? ==> e.tapped.value in children)
  }

  ghost predicate EventsFit(db: Db) {
    forall k :: 0 <= k < |db.events| ==> EventFits(db.events[k], db.instances, db.children)
  }

  ghost predicate InstancesFit(db: Db) {
    forall i :: i in db.instances ==>
      var x := db.instances[i];
      i < db.nextInstance && x.definition in db.definitions && x.child in db.children && x.window in QUEST_WINDOWS
  }

  /** UNIQUE (definition_id, child_id, due_date, window). */
  ghost predicate KeysUnique(db: Db) {
    forall i, j :: i in db.instances && j in db.instances &&
      HasKey(db.instances[i], db.instances[j].definition, db.instances[j].child, db.instances[j].dueDate,
          db.instances[j].window)
      ==> i == j
  }

  ghost predicate DefinitionsFit(db: Db) {
    forall d :: d in db.definitions ==> d < db.nextDefinition && db.definitions[d].rule in db.rules
  }

  ghost predicate LinksFit(db: Db) {
    forall p :: p in db.assignees ==> p.0 in db.definitions && p.1 in db.children
  }

  ghost predicate WindowsFit(db: Db) {
    forall p :: p in db.windows ==> p.0 in db.definitions && p.1 in QUEST_WINDOWS
  }

  ghost predicate RulesFit(db: Db) {
    forall r :: r in db.rules ==> r < db.nextRule && IsRuleRow(db.rules[r])
  }

  ghost predicate ChildrenFit(db: Db) {
    forall c :: c in db.children ==> c < db.nextChild
  }

  /** Every reference is to a row that exists, every row satisfies its table's constraints. */
  ghost predicate WellFormed(db: Db) {
    && EventsFit(db) && InstancesFit(db) && KeysUnique(db) && DefinitionsFit(db)
    && LinksFit(db) && WindowsFit(db) && RulesFit(db) && ChildrenFit(db)
  }

  /** The log only grows at its end, and a row the log speaks of stays as it is. */
  ghost predicate KeepsHistory(db: Db, after: Db) {
    && db.events <= after.events
    && forall i :: i in db.instances && HasEvent(db.events, i) ==>
         i in after.instances && after.instances[i] == db.instances[i]
  }

  ghost predicate Keeps(db: Db, after: Db) {
    WellFormed(after) && KeepsHistory(db, after)
  }

  lemma WrittenKeeps(db: Db, x: Instance)
    requires WellFormed(db) && !IsImmutable(db, x)
    requires x.definition in db.definitions && x.child in db.children && x.window in QUEST_WINDOWS
    ensures Keeps(db, Written(db, x))
  {
    hide IsRuleRow, QUEST_WINDOWS, Lookup, HasKey, HasEvent;
    WrittenFits(db, x);
    WrittenUnique(db, x);
    WrittenChild(db, x);
    hide InstancesFit, KeysUnique;
  }

  /** A rewritten row keeps its child. */
  lemma WrittenChild(db: Db, x: Instance)
    requires EventsFit(db) && InstancesFit(db)
    ensures EventsFit(Written(db, x))
  {
    hide HasEvent, Lookup;
    var after := Written(db, x);
    forall k | 0 <= k < |db.events| ensures EventFits(db.events[k], after.instances, after.children) {
      assert EventFits(db.events[k], db.instances, db.children);
    }
  }

  lemma WrittenFits(db: Db, x: Instance)
    requires InstancesFit(db)
    requires x.definition in db.definitions && x.child in db.children && x.window in QUEST_WINDOWS
    ensures InstancesFit(Written(db, x))
  {}

  lemma WrittenUnique(db: Db, x: Instance)
    requires InstancesFit(db) && KeysUnique(db)
    ensures KeysUnique(Written(db, x))
  {
    var after := Written(db, x);
    forall i, j | i in after.instances && j in after.instances &&
      HasKey(after.instances[i], after.instances[j].definition, after.instances[j].child, after.instances[j].dueDate,
             after.instances[j].window)
      ensures i == j
    {
      if i in db.instances && j in db.instances {
        assert HasKey(db.instances[i], db.instances[j].definition, db.instances[j].child, db.instances[j].dueDate,
                      db.instances[j].window);
      }
    }
  }

  // ----- deletions

  /** Instances go, none with an event. */
  lemma FewerKeeps(db: Db, after: Db)
    requires WellFormed(db)
    requires after == db.(instances := after.instances)
    requires forall i :: i in after.instances ==> i in db.instances && after.instances[i] == db.instances[i]
    requires forall i :: i in db.instances && HasEvent(db.events, i) ==> i in after.instances
    ensures Keeps(db, after)
  {
    hide IsRuleRow, QUEST_WINDOWS;
    forall k | 0 <= k < |db.events| ensures EventFits(db.events[k], after.instances, after.children) {
      assert EventFits(db.events[k], db.instances, db.children);
      assert HasEvent(db.events, db.events[k].instance);
    }
    FewerUnique(db, after);
  }

  lemma FewerUnique(db: Db, after: Db)
    requires KeysUnique(db)
    requires forall i :: i in after.instances ==> i in db.instances && after.instances[i] == db.instances[i]
    ensures KeysUnique(after)
  {}

  lemma DeleteFutureKeeps(db: Db, scope: Scope, cutoff: Day, today: Day)
    requires WellFormed(db)
    ensures Keeps(db, DeleteFuture(db, scope, cutoff, today))
  {
    hide WellFormed, Keeps, HasEvent;
    FewerKeeps(db, DeleteFuture(db, scope, cutoff, today));
  }

  lemma DeleteRuleKeeps(db: Db, rule: nat)
    requires WellFormed(db)
    ensures Keeps(db, DeleteRuleIfUnreferenced(db, rule))
  {
    hide IsRuleRow, QUEST_WINDOWS, EventsFit, InstancesFit, KeysUnique, LinksFit, WindowsFit, ChildrenFit, HasEvent;
    var after := DeleteRuleIfUnreferenced(db, rule);
    SameRows(db, after);
    SameConfig(db, after);
  }

  /** Instances, events, children and definitions as before. */
  lemma SameRows(db: Db, after: Db)
    requires after.instances == db.instances && after.events == db.events && after.nextInstance == db.nextInstance
    requires forall c :: c in db.children ==> c in after.children
    requires forall d :: d in db.definitions ==> d in after.definitions
    ensures EventsFit(db) ==> EventsFit(after)
    ensures InstancesFit(db) ==> InstancesFit(after)
    ensures KeysUnique(db) ==> KeysUnique(after)
    ensures KeepsHistory(db, after)
  {
    hide HasEvent, QUEST_WINDOWS;
    if EventsFit(db) {
      forall k | 0 <= k < |after.events| ensures EventFits(after.events[k], after.instances, after.children) {
        assert EventFits(db.events[k], db.instances, db.children);
      }
    }
  }

  lemma DeleteDefinitionKeeps(db: Db, definition: nat)
    requires WellFormed(db) && DeleteIfNoHistory(db, definition).Deleted?
    ensures Keeps(db, DeleteIfNoHistory(db, definition).db)
  {
    hide IsRuleRow, QUEST_WINDOWS, HasEvent, WellFormed, KeepsHistory, DeleteRuleIfUnreferenced;
    var rule := db.definitions[definition].rule;
    var cleared := db.(instances :=
                         map i | i in db.instances && db.instances[i].definition != definition :: db.instances[i]);
    NoHistoryNoEvent(db, definition);
    FewerKeeps(db, cleared);
    var gone := cleared.(assignees := WithoutLinks(db.assignees, definition, {}),
                         windows := WithoutWindows(db.windows, definition),
                         definitions := db.definitions - {definition});
    GoneKeeps(db, cleared, gone, definition);
    DeleteRuleKeeps(gone, rule);
    KeepsTwice(db, gone, DeleteRuleIfUnreferenced(gone, rule));
  }

  lemma NoHistoryNoEvent(db: Db, definition: nat)
    requires !HasHistory(db, definition)
    ensures forall i :: i in db.instances && db.instances[i].definition == definition ==> !HasEvent(db.events, i)
  {}

  lemma GoneKeeps(db: Db, cleared: Db, gone: Db, definition: nat)
    requires Keeps(db, cleared) && forall i :: i in cleared.instances ==> cleared.instances[i].definition != definition
    requires gone == cleared.(assignees := WithoutLinks(cleared.assignees, definition, {}),
                              windows := WithoutWindows(cleared.windows, definition),
                              definitions := cleared.definitions - {definition})
    ensures Keeps(db, gone)
  {
    hide IsRuleRow, QUEST_WINDOWS, HasEvent, EventFits, HasKey;
    assert WellFormed(cleared);
    assert EventsFit(gone) && KeysUnique(gone);
  }

  lemma KeepsTwice(a: Db, b: Db, c: Db)
    requires Keeps(a, b) && Keeps(b, c)
    ensures Keeps(a, c)
  {
    hide WellFormed;
    HistoryTwice(a, b, c);
  }

  lemma HistoryTwice(a: Db, b: Db, c: Db)
    requires KeepsHistory(a, b) && KeepsHistory(b, c)
    ensures KeepsHistory(a, c)
  {
    forall i | i in a.instances && HasEvent(a.events, i)
      ensures i in c.instances && c.instances[i] == a.instances[i]
    {
      var k :| 0 <= k < |a.events| && a.events[k].instance == i;
      assert b.events[k].instance == i;
      assert HasEvent(b.events, i);
    }
  }

  // ----- additions and edits

  lemma AppendKeeps(db: Db, e: LogEvent)
    requires WellFormed(db) && MayAppend(db, e)
    ensures Keeps(db, Append(db, e).value)
  {
    hide IsRuleRow, QUEST_WINDOWS, HasEvent, InstancesFit, KeysUnique, DefinitionsFit, LinksFit, WindowsFit, RulesFit;
    var after := Append(db, e).value;
    SameTables(db, after);
  }

  lemma SameTables(db: Db, after: Db)
    requires after == db.(events := after.events)
    ensures InstancesFit(db) ==> InstancesFit(after)
    ensures KeysUnique(db) ==> KeysUnique(after)
    ensures DefinitionsFit(db) ==> DefinitionsFit(after)
    ensures LinksFit(db) ==> LinksFit(after)
    ensures WindowsFit(db) ==> WindowsFit(after)
    ensures RulesFit(db) ==> RulesFit(after)
  {
    hide IsRuleRow, QUEST_WINDOWS, HasKey;
  }

  lemma RuleKeeps(db: Db, after: Db, id: nat, rule: Rule)
    requires WellFormed(db) && IsRuleRow(rule)
    requires (id in db.rules && after == db.(rules := db.rules[id := rule])) || after == CreateRule(db, rule).value
    ensures Keeps(db, after)
  {
    hide IsRuleRow, QUEST_WINDOWS, EventsFit, InstancesFit, KeysUnique, LinksFit, WindowsFit, ChildrenFit, HasEvent;
    SameRows(db, after);
    SameConfig(db, after);
  }

  lemma SameConfig(db: Db, after: Db)
    requires after.assignees == db.assignees && after.windows == db.windows
    requires forall c :: c in db.children ==> c in after.children
    requires forall d :: d in db.definitions ==> d in after.definitions
    ensures LinksFit(db) ==> LinksFit(after)
    ensures WindowsFit(db) ==> WindowsFit(after)
    ensures after.children == db.children && after.nextChild == db.nextChild && ChildrenFit(db) ==> ChildrenFit(after)
  {}

  /** The definition's own row changes, to one with a rule that exists. */
  lemma DefinitionKeeps(db: Db, after: Db, id: nat, row: Definition)
    requires WellFormed(db) && row.rule in db.rules
    requires (id in db.definitions && after == db.(definitions := db.definitions[id := row])) ||
             (id == db.nextDefinition &&
              after == db.(definitions := db.definitions[id := row], nextDefinition := id + 1))
    ensures Keeps(db, after)
  {
    hide IsRuleRow, QUEST_WINDOWS, EventsFit, InstancesFit, KeysUnique, LinksFit, WindowsFit, ChildrenFit, HasEvent;
    SameRows(db, after);
    SameConfig(db, after);
  }

  lemma ChildKeeps(db: Db, after: Db, id: nat, row: Child)
    requires WellFormed(db)
    requires (id in db.children && after == db.(children := db.children[id := row])) || after == CreateChild(db, row)
    ensures Keeps(db, after)
  {
    hide IsRuleRow, QUEST_WINDOWS, EventsFit, InstancesFit, KeysUnique, LinksFit, WindowsFit, HasEvent;
    SameRows(db, after);
    SameConfig(db, after);
  }

  /** Links and windows change, to ones that fit. */
  lemma ConfigKeeps(db: Db, after: Db)
    requires WellFormed(db) && after == db.(assignees := after.assignees, windows := after.windows)
    requires LinksFit(after) && WindowsFit(after)
    ensures Keeps(db, after)
  {
    hide IsRuleRow, QUEST_WINDOWS, EventsFit, InstancesFit, KeysUnique, LinksFit, WindowsFit, HasEvent;
    SameRows(db, after);
  }

  lemma {:induction false} InsertLinksAre(links: set<(nat, nat)>, definition: nat, children: seq<nat>)
    requires InsertLinks(links, definition, children).Some?
    ensures InsertLinks(links, definition, children).value == links + set c | c in children :: (definition, c)
    decreases |children|
  {
    if children != [] {
      InsertLinksAre(links + {(definition, children[0])}, definition, children[1..]);
      assert children == [children[0]] + children[1..];
    }
  }

  lemma {:induction false} InsertWindowsAre(
    windows: map<(nat, string), Option<string>>, definition: nat, added: seq<(string, Option<string>)>)
    requires InsertWindows(windows, definition, added).Some?
    ensures var after := InsertWindows(windows, definition, added).value;
            && (forall p :: p in after <==>
                  p in windows || (p.0 == definition && exists i :: 0 <= i < |added| && added[i].0 == p.1))
            && (forall p :: p in windows ==> after[p] == windows[p])
            && (forall i :: 0 <= i < |added| ==>
                  added[i].0 in QUEST_WINDOWS && (definition, added[i].0) in after &&
                      after[(definition, added[i].0)] == added[i].1)
    decreases |added|
  {
    hide IsTime;
    if added != [] {
      var (window, dueTime) := added[0];
      InsertWindowsAre(windows[(definition, window) := dueTime], definition, added[1..]);
      assert added == [added[0]] + added[1..];
    }
  }

  lemma NewLinksFit(db: Db, after: Db, definition: nat, children: seq<nat>)
    requires LinksFit(db) && definition in db.definitions && AllActive(db, children)
    requires after.definitions == db.definitions && after.children == db.children
    requires forall p :: p in after.assignees ==> p in db.assignees || (p.0 == definition && p.1 in children)
    ensures LinksFit(after)
  {}

  lemma NewWindowsFit(db: Db, after: Db, definition: nat, added: seq<(string, Option<string>)>)
    requires WindowsFit(db) && definition in db.definitions && after.definitions == db.definitions
    requires forall i :: 0 <= i < |added| ==> added[i].0 in QUEST_WINDOWS
    requires forall p :: p in after.windows ==>
               p in db.windows || (p.0 == definition && exists i :: 0 <= i < |added| && added[i].0 == p.1)
    ensures WindowsFit(after)
  {
    hide QUEST_WINDOWS;
  }

  lemma CreateDefinitionKeeps(db: Db, title: string, rule: nat, isActive: bool, children: seq<nat>)
    requires WellFormed(db) && CreateDefinition(db, title, rule, isActive, children).Some?
    ensures Keeps(db, CreateDefinition(db, title, rule, isActive, children).value)
  {
    hide WellFormed, KeepsHistory, IsRuleRow;
    var after := CreateDefinition(db, title, rule, isActive, children).value;
    var row := Definition(title, rule, isActive);
    var mid := db.(definitions := db.definitions[db.nextDefinition := row], nextDefinition := db.nextDefinition + 1);
    DefinitionKeeps(db, mid, db.nextDefinition, row);
    InsertLinksAre(db.assignees, db.nextDefinition, children);
    FitParts(mid);
    NewLinksFit(mid, after, db.nextDefinition, children);
    WindowsFitToo(mid, after);
    ConfigKeeps(mid, after);
    KeepsTwice(db, mid, after);
  }

  lemma FitParts(db: Db)
    requires WellFormed(db)
    ensures LinksFit(db) && WindowsFit(db) && DefinitionsFit(db)
  {}

  lemma WindowsFitToo(db: Db, after: Db)
    requires WindowsFit(db) && after.windows == db.windows && after.definitions == db.definitions
    ensures WindowsFit(after)
  {
    hide QUEST_WINDOWS;
  }

  lemma CreateWithRuleKeeps(db: Db, title: string, rule: Rule, children: seq<nat>,
      windows: seq<(string, Option<string>)>)
    requires WellFormed(db) && CreateWithRuleAndWindows(db, title, rule, children, windows).Some?
    ensures Keeps(db, CreateWithRuleAndWindows(db, title, rule, children, windows).value)
  {
    hide WellFormed, KeepsHistory, IsRuleRow, CreateDefinition;
    var after := CreateWithRuleAndWindows(db, title, rule, children, windows).value;
    var ruled := CreateRule(db, rule).value;
    var made := CreateDefinition(ruled, title, db.nextRule, true, children).value;
    RuleKeeps(db, ruled, db.nextRule, rule);
    CreateDefinitionKeeps(ruled, title, db.nextRule, true, children);
    MadeIs(ruled, title, db.nextRule, children);
    FitParts(made);
    InsertWindowsAre(made.windows, db.nextDefinition, windows);
    NewWindowsFit(made, after, db.nextDefinition, windows);
    NewLinksFit(made, after, db.nextDefinition, []);
    ConfigKeeps(made, after);
    KeepsTwice(db, ruled, made);
    KeepsTwice(db, made, after);
  }

  lemma MadeIs(db: Db, title: string, rule: nat, children: seq<nat>)
    requires CreateDefinition(db, title, rule, true, children).Some?
    ensures var made := CreateDefinition(db, title, rule, true, children).value;
            db.nextDefinition in made.definitions && made.windows == db.windows
  {}

  lemma {:induction false} MissingAre(links: set<(nat, nat)>, definition: nat, children: seq<nat>)
    ensures forall c :: c in Missing(links, definition, children) <==> c in children && (definition, c) !in links
  {
    if children != [] {
      MissingAre(links, definition, children[1..]);
    }
  }

  /** The definition's links become exactly the given children; nobody else's change. */
  lemma ReplaceLinksAre(links: set<(nat, nat)>, definition: nat, children: seq<nat>)
    requires ReplaceLinks(links, definition, children).Some?
    ensures forall p :: p in ReplaceLinks(links, definition, children).value <==>
              if p.0 == definition then p.1 in children else p in links
  {
    hide InsertLinks, Missing;
    var kept := WithoutLinks(links, definition, set c | c in children);
    InsertLinksAre(kept, definition, Missing(links, definition, children));
    MissingAre(links, definition, children);
    var after := ReplaceLinks(links, definition, children).value;
    forall c | c in children ensures (definition, c) in after {
      if (definition, c) !in links {
        assert c in Missing(links, definition, children);
      }
    }
  }

  /** The definition's links are exactly the children given, if any are. */
  ghost predicate LinksEdited(db: Db, after: Db, definition: nat, edit: Edit) {
    forall p: (nat, nat) :: p in after.assignees <==>
      if edit.children.Some? && p.0 == definition then p.1 in edit.children.value else p in db.assignees
  }

  /** Its windows are exactly those given, if any are, with their due times. */
  ghost predicate WindowsEdited(db: Db, after: Db, definition: nat, edit: Edit) {
    && (forall p: (nat, string) :: edit.windows.None? || p.0 != definition ==>
          (p in after.windows <==> p in db.windows) && (p in db.windows ==> after.windows[p] == db.windows[p]))
    && (edit.windows.Some? ==>
          && (forall w :: (definition, w) in after.windows ==>
               exists i :: 0 <= i < |edit.windows.value| && edit.windows.value[i].0 == w)
          && forall i :: 0 <= i < |edit.windows.value| ==>
               var (w, t) := edit.windows.value[i];
               w in QUEST_WINDOWS && (definition, w) in after.windows && after.windows[(definition, w)] == t)
  }

  /** Its title and the row of its rule are those given, if they are. */
  ghost predicate RowEdited(db: Db, after: Db, definition: nat, edit: Edit) {
    definition in db.definitions &&
    var was := db.definitions[definition];
    && after.definitions ==
       db.definitions[definition := (if edit.title.Some? then was.(title := edit.title.value) else was)]
    && after.rules == (if edit.rule.Some? then db.rules[was.rule := edit.rule.value] else db.rules)
    && (edit.rule.Some? ==> IsRuleRow(edit.rule.value))
  }

  /** An accepted edit writes exactly what it was given, and touches no instance, no event and nobody
      else's configuration. */
  lemma EditIsExact(db: Db, definition: nat, edit: Edit)
    requires DefinitionsFit(db) && EditDefinition(db, definition, edit).Some?
    ensures var after := EditDefinition(db, definition, edit).value;
            && after == db.(definitions := after.definitions, rules := after.rules, windows := after.windows,
                            assignees := after.assignees)
            && RowEdited(db, after, definition, edit)
            && LinksEdited(db, after, definition, edit)
            && WindowsEdited(db, after, definition, edit)
  {
    hide IsRuleRow, QUEST_WINDOWS, InsertWindows, ReplaceLinks, AllActive, LinksEdited, WindowsEdited;
    var after := EditDefinition(db, definition, edit).value;
    EditLinks(db, after, definition, edit);
    EditWindows(db, after, definition, edit);
    assert edit.title.None? ==> db.definitions == db.definitions[definition := db.definitions[definition]];
  }

  lemma EditLinks(db: Db, after: Db, definition: nat, edit: Edit)
    requires if edit.children.None? then after.assignees == db.assignees
             else ReplaceLinks(db.assignees, definition, edit.children.value) == Some(after.assignees)
    ensures LinksEdited(db, after, definition, edit)
  {
    hide ReplaceLinks;
    if edit.children.Some? { ReplaceLinksAre(db.assignees, definition, edit.children.value); }
  }

  lemma EditWindows(db: Db, after: Db, definition: nat, edit: Edit)
    requires edit.windows.None? ==> after.windows == db.windows
    requires edit.windows.Some? ==>
             InsertWindows(WithoutWindows(db.windows, definition), definition, edit.windows.value) ==
                 Some(after.windows)
    ensures WindowsEdited(db, after, definition, edit)
  {
    hide InsertWindows, QUEST_WINDOWS;
    if edit.windows.Some? {
      InsertWindowsAre(WithoutWindows(db.windows, definition), definition, edit.windows.value);
    }
  }

  lemma EditKeeps(db: Db, definition: nat, edit: Edit)
    requires WellFormed(db) && EditDefinition(db, definition, edit).Some?
    ensures Keeps(db, EditDefinition(db, definition, edit).value)
  {
    FitParts(db);
    hide WellFormed, KeepsHistory, IsRuleRow, LinksEdited, WindowsEdited, LinksFit, WindowsFit, AllActive,
      QUEST_WINDOWS;
    var after := EditDefinition(db, definition, edit).value;
    assert edit.children.Some? ==> AllActive(db, edit.children.value);
    EditIsExact(db, definition, edit);
    hide EditDefinition;
    var row := after.definitions[definition];
    var titled := db.(definitions := after.definitions);
    DefinitionKeeps(db, titled, definition, row);
    var ruled := titled.(rules := after.rules);
    if edit.rule.Some? {
      RuleKeeps(titled, ruled, row.rule, edit.rule.value);
    } else {
      KeepsItself(titled);
    }
    KeepsTwice(db, titled, ruled);
    EditConfigFits(db, after, definition, edit);
    ConfigKeeps(ruled, after);
    KeepsTwice(db, ruled, after);
  }

  lemma KeepsItself(db: Db)
    requires WellFormed(db)
    ensures Keeps(db, db)
  {
    hide WellFormed;
  }

  lemma EditConfigFits(db: Db, after: Db, definition: nat, edit: Edit)
    requires LinksFit(db) && WindowsFit(db) && definition in db.definitions
    requires after.children == db.children && forall d :: d in db.definitions <==> d in after.definitions
    requires edit.children.Some? ==> AllActive(db, edit.children.value)
    requires LinksEdited(db, after, definition, edit) && WindowsEdited(db, after, definition, edit)
    ensures LinksFit(after) && WindowsFit(after)
  {
    hide QUEST_WINDOWS;
    forall p | p in after.windows ensures p.0 in after.definitions && p.1 in QUEST_WINDOWS {
      if edit.windows.Some? && p.0 == definition {
        assert (definition, p.1) in after.windows;
      }
    }
  }

  // ----- every run

  lemma NextKeeps(db: Db, op: Op)
    requires WellFormed(db)
    ensures Keeps(db, Next(db, op))
  {
    hide WellFormed, KeepsHistory, Keeps, SetActive, SetChildActive, CreateChild, AddAssignee, RemoveAssignee,
      UpsertWindow, RemoveWindow, CreateDefinition, CreateWithRuleAndWindows, EditDefinition, DeleteIfNoHistory,
      DeleteRuleIfUnreferenced;
    match op {
      case UpsertOp(x, today) => UpsertKeeps(db, x, today);
      case UpsertIfValidOp(x, today) => UpsertIfValidKeeps(db, x, today);
      case DeleteFutureOp(scope, cutoff, today) => DeleteFutureKeeps(db, scope, cutoff, today);
      case AppendOp(e) => if MayAppend(db, e) { AppendKeeps(db, e); } else { KeepsItself(db); }
      case CreateRuleOp(rule) => RuleOpsKeep(db, op);
      case UpdateRuleOp(id, rule) => RuleOpsKeep(db, op);
      case DeleteRuleOp(id) => DeleteRuleKeeps(db, id);
      case CreateDefinitionOp(title, rule, isActive, children) =>
        KeepsItself(db);
        if CreateDefinition(db, title, rule, isActive, children).Some? {
          CreateDefinitionKeeps(db, title, rule, isActive, children);
        }
      case CreateWithRuleOp(title, rule, children, windows) =>
        KeepsItself(db);
        if CreateWithRuleAndWindows(db, title, rule, children, windows).Some? {
          CreateWithRuleKeeps(db, title, rule, children, windows);
        }
      case EditOp(d, edit) =>
        KeepsItself(db);
        if EditDefinition(db, d, edit).Some? { EditKeeps(db, d, edit); }
      case DeleteDefinitionOp(d) =>
        KeepsItself(db);
        if DeleteIfNoHistory(db, d).Deleted? { DeleteDefinitionKeeps(db, d); }
      case SetActiveOp(d, isActive) => ActiveOpsKeep(db, d, isActive, Child("", true));
      case CreateChildOp(child) => ActiveOpsKeep(db, 0, true, child);
      case SetChildActiveOp(child, isActive) => ActiveOpsKeep(db, child, isActive, Child("", true));
      case AddAssigneeOp(d, child) => AssigneeOpsKeep(db, d, child); KeepsItself(db);
      case RemoveAssigneeOp(d, child) => AssigneeOpsKeep(db, d, child);
      case UpsertWindowOp(d, window, dueTime) => WindowOpsKeep(db, d, window, dueTime); KeepsItself(db);
      case RemoveWindowOp(d, window) => WindowOpsKeep(db, d, window, None);
    }
  }

  lemma UpsertKeeps(db: Db, x: Instance, today: Day)
    requires WellFormed(db)
    ensures Keeps(db, Next(db, UpsertOp(x, today)))
  {
    hide KeepsHistory, Keeps, Written, IsImmutable, EventsFit, InstancesFit, KeysUnique, IsRuleRow;
    KeepsItself(db);
    if Upsert(db, x, today).Row? { WrittenKeeps(db, x); }
  }

  lemma UpsertIfValidKeeps(db: Db, x: Instance, today: Day)
    requires WellFormed(db)
    ensures Keeps(db, Next(db, UpsertIfValidOp(x, today)))
  {
    hide KeepsHistory, Keeps, Written, IsImmutable, EventsFit, InstancesFit, KeysUnique, IsRuleRow;
    KeepsItself(db);
    if UpsertIfValid(db, x, today).Row? { WrittenKeeps(db, x); }
  }

  lemma RuleOpsKeep(db: Db, op: Op)
    requires WellFormed(db) && (op.CreateRuleOp? || op.UpdateRuleOp?)
    ensures Keeps(db, Next(db, op))
  {
    hide KeepsHistory, Keeps, WellFormed, IsRuleRow;
    KeepsItself(db);
    if op.CreateRuleOp? && IsRuleRow(op.rule) {
      RuleKeeps(db, Next(db, op), db.nextRule, op.rule);
    } else if op.UpdateRuleOp? && IsRuleRow(op.rule) && op.id in db.rules {
      RuleKeeps(db, Next(db, op), op.id, op.rule);
    }
  }

  lemma ActiveOpsKeep(db: Db, id: nat, isActive: bool, child: Child)
    requires WellFormed(db)
    ensures Keeps(db, SetActive(db, id, isActive))
    ensures Keeps(db, SetChildActive(db, id, isActive))
    ensures Keeps(db, CreateChild(db, child))
  {
    FitParts(db);
    hide KeepsHistory, Keeps, WellFormed, LinksFit, WindowsFit;
    KeepsItself(db);
    ChildKeeps(db, CreateChild(db, child), db.nextChild, child);
    if id in db.definitions {
      DefinitionKeeps(db, SetActive(db, id, isActive), id, db.definitions[id].(isActive := isActive));
    }
    if id in db.children {
      ChildKeeps(db, SetChildActive(db, id, isActive), id, db.children[id].(isActive := isActive));
    }
  }

  lemma AssigneeOpsKeep(db: Db, definition: nat, child: nat)
    requires WellFormed(db)
    ensures AddAssignee(db, definition, child).Some? ==> Keeps(db, AddAssignee(db, definition, child).value)
    ensures Keeps(db, RemoveAssignee(db, definition, child))
  {
    FitParts(db);
    hide KeepsHistory, Keeps, WellFormed, WindowsFit, DefinitionsFit, LinksFit;
    var fewer := RemoveAssignee(db, definition, child);
    OneLinkFits(db, definition, child);
    WindowsFitToo(db, fewer);
    ConfigKeeps(db, fewer);
    if AddAssignee(db, definition, child).Some? {
      var more := AddAssignee(db, definition, child).value;
      WindowsFitToo(db, more);
      ConfigKeeps(db, more);
    }
  }

  lemma OneLinkFits(db: Db, definition: nat, child: nat)
    requires LinksFit(db)
    ensures AddAssignee(db, definition, child).Some? ==> LinksFit(AddAssignee(db, definition, child).value)
    ensures LinksFit(RemoveAssignee(db, definition, child))
  {}

  lemma WindowOpsKeep(db: Db, definition: nat, window: string, dueTime: Option<string>)
    requires WellFormed(db)
    ensures UpsertWindow(db, definition, window, dueTime).Some? ==>
              Keeps(db, UpsertWindow(db, definition, window, dueTime).value)
    ensures Keeps(db, RemoveWindow(db, definition, window))
  {
    FitParts(db);
    hide KeepsHistory, Keeps, WellFormed, LinksFit, DefinitionsFit, WindowsFit, IsTime, QUEST_WINDOWS;
    var fewer := RemoveWindow(db, definition, window);
    OneWindowFits(db, definition, window, dueTime);
    LinksFitToo(db, fewer);
    ConfigKeeps(db, fewer);
    if UpsertWindow(db, definition, window, dueTime).Some? {
      var more := UpsertWindow(db, definition, window, dueTime).value;
      LinksFitToo(db, more);
      ConfigKeeps(db, more);
    }
  }

  lemma OneWindowFits(db: Db, definition: nat, window: string, dueTime: Option<string>)
    requires WindowsFit(db)
    ensures UpsertWindow(db, definition, window, dueTime).Some? ==>
              WindowsFit(UpsertWindow(db, definition, window, dueTime).value)
    ensures WindowsFit(RemoveWindow(db, definition, window))
  {
    hide QUEST_WINDOWS, IsTime;
  }

  lemma LinksFitToo(db: Db, after: Db)
    requires LinksFit(db) && after.assignees == db.assignees
    requires after.definitions == db.definitions && after.children == db.children
    ensures LinksFit(after)
  {}

  lemma {:induction false} ExecKeeps(db: Db, run: seq<Op>)
    requires WellFormed(db)
    ensures Keeps(db, Exec(db, run))
    decreases |run|
  {
    hide WellFormed, KeepsHistory, Next;
    KeepsItself(db);
    if run != [] {
      NextKeeps(db, run[0]);
      ExecKeeps(Next(db, run[0]), run[1..]);
      KeepsTwice(db, Next(db, run[0]), Exec(db, run));
    }
  }

  lemma EmptyIsWellFormed()
    ensures WellFormed(EMPTY)
  {}

  lemma {:induction false} ExecConcat(db: Db, a: seq<Op>, b: seq<Op>)
    ensures Exec(db, a + b) == Exec(Exec(db, a), b)
    decreases |a|
  {
    hide Next;
    if a == [] {
      assert a + b == b;
    } else {
      assert (a + b)[1..] == a[1..] + b;
      ExecConcat(Next(db, a[0]), a[1..], b);
    }
  }

  /** Over every sequence of operations the log only grows at its end, and an instance it speaks of is never
      changed or deleted. */
  lemma HistoryIsKept(run: seq<Op>, more: seq<Op>)
    ensures KeepsHistory(Exec(EMPTY, run), Exec(EMPTY, run + more))
  {
    hide WellFormed, KeepsHistory, Next;
    EmptyIsWellFormed();
    ExecKeeps(EMPTY, run);
    ExecKeeps(Exec(EMPTY, run), more);
    ExecConcat(EMPTY, run, more);
  }

  /** Every event's instance, every instance's definition and child, and every definition's rule exist, and no
      key has two rows. */
  lemma ReferencesExist(run: seq<Op>)
    ensures WellFormed(Exec(EMPTY, run))
    ensures var db := Exec(EMPTY, run);
            forall k :: 0 <= k < |db.events| ==>
              var i := db.events[k].instance;
              && i in db.instances && db.instances[i].child == db.events[k].child &&
                   db.instances[i].child in db.children
              && db.instances[i].definition in db.definitions
              && db.definitions[db.instances[i].definition].rule in db.rules
  {
    hide Next, IsRuleRow;
    EmptyIsWellFormed();
    ExecKeeps(EMPTY, run);
    var db := Exec(EMPTY, run);
    forall k | 0 <= k < |db.events| ensures EventFits(db.events[k], db.instances, db.children) {}
  }

  // ----- exact effects

  /** An upsert changes one row: the key's own, of which only the due time and the stamp, or a new one under an
      id no row ever had. */
  lemma WrittenIsExact(db: Db, x: Instance, id: nat)
    requires WellFormed(db)
    ensures var after := Written(db, x);
            && after == db.(instances := after.instances, nextInstance := after.nextInstance)
            && (id in after.instances && !(id in db.instances && after.instances[id] == db.instances[id]) ==>
                  && HasKey(after.instances[id], x.definition, x.child, x.dueDate, x.window)
                  && after.instances[id].dueTime == x.dueTime && after.instances[id].generatedAt == x.generatedAt
                  && (id in db.instances || (id == db.nextInstance && after.instances[id] == x)))
            && (id in db.instances ==> id in after.instances)
            && exists i :: i in after.instances &&
                 HasKey(after.instances[i], x.definition, x.child, x.dueDate, x.window)
                           && after.instances[i].dueTime == x.dueTime && after.instances[i].generatedAt == x.generatedAt
  {
    hide EventsFit, KeysUnique, DefinitionsFit, LinksFit, WindowsFit, RulesFit, ChildrenFit, HasEvent;
    var found := Lookup(db.instances, db.nextInstance, x.definition, x.child, x.dueDate, x.window);
    var i := if found.Some? then found.value else db.nextInstance;
    assert HasKey(Written(db, x).instances[i], x.definition, x.child, x.dueDate, x.window);
  }

  /** What each change of the configuration makes of a tuple: exactly those it names stop, or may start, being
      materializable. */
  lemma MaterializableAfter(db: Db, d: nat, c: nat, window: string, dueTime: Option<string>, isActive: bool,
      x: Instance)
    ensures RowFits(RemoveAssignee(db, d, c), x) <==> RowFits(db, x) && !(x.definition == d && x.child == c)
    ensures RowFits(RemoveWindow(db, d, window), x) <==> RowFits(db, x) && !(x.definition == d && x.window == window)
    ensures RowFits(SetActive(db, d, false), x) <==> RowFits(db, x) && x.definition != d
    ensures RowFits(SetChildActive(db, c, false), x) <==> RowFits(db, x) && x.child != c
    ensures AddAssignee(db, d, c).Some? ==>
              && (RowFits(db, x) ==> RowFits(AddAssignee(db, d, c).value, x))
              && (RowFits(AddAssignee(db, d, c).value, x) && !RowFits(db, x) ==> x.definition == d && x.child == c)
    ensures UpsertWindow(db, d, window, dueTime).Some? ==>
              var after := UpsertWindow(db, d, window, dueTime).value;
              if x.definition == d && x.window == window
              then (RowFits(db, x) ==> RowFits(after, x.(dueTime := dueTime))) &&
                  (RowFits(after, x) ==> x.dueTime == dueTime)
              else RowFits(after, x) <==> RowFits(db, x)
  {
    if AddAssignee(db, d, c).Some? { LinkedTuple(db, d, c, x); }
    if UpsertWindow(db, d, window, dueTime).Some? { RetimedTuple(db, d, window, dueTime, x); }
    hide AddAssignee, UpsertWindow;
  }

  lemma LinkedTuple(db: Db, d: nat, c: nat, x: Instance)
    requires AddAssignee(db, d, c).Some?
    ensures RowFits(db, x) ==> RowFits(AddAssignee(db, d, c).value, x)
    ensures RowFits(AddAssignee(db, d, c).value, x) && !RowFits(db, x) ==> x.definition == d && x.child == c
  {}

  lemma RetimedTuple(db: Db, d: nat, window: string, dueTime: Option<string>, x: Instance)
    requires UpsertWindow(db, d, window, dueTime).Some?
    ensures var after := UpsertWindow(db, d, window, dueTime).value;
            if x.definition == d && x.window == window
            then (RowFits(db, x) ==> RowFits(after, x.(dueTime := dueTime))) &&
                (RowFits(after, x) ==> x.dueTime == dueTime)
            else RowFits(after, x) <==> RowFits(db, x)
  {
    hide IsTime, QUEST_WINDOWS;
  }

  /** A creation makes one definition, under an id no row ever had, with exactly the rule, the children and the
      windows given, and changes nothing else. */
  lemma CreateIsExact(db: Db, title: string, rule: Rule, children: seq<nat>, windows: seq<(string, Option<string>)>)
    requires WellFormed(db) && CreateWithRuleAndWindows(db, title, rule, children, windows).Some?
    ensures var after := CreateWithRuleAndWindows(db, title, rule, children, windows).value;
            var d := db.nextDefinition;
            && after == db.(definitions := after.definitions, rules := after.rules, assignees := after.assignees,
                            windows := after.windows, nextDefinition := d + 1, nextRule := db.nextRule + 1)
            && d !in db.definitions && after.definitions == db.definitions[d := Definition(title, db.nextRule, true)]
            && db.nextRule !in db.rules && after.rules == db.rules[db.nextRule := rule]
            && after.assignees == db.assignees + (set c | c in children :: (d, c))
            && (forall p :: p in after.windows <==>
                 p in db.windows || (p.0 == d && exists i :: 0 <= i < |windows| && windows[i].0 == p.1))
            && (forall p :: p in db.windows ==> after.windows[p] == db.windows[p])
            && forall i :: 0 <= i < |windows| ==> after.windows[(d, windows[i].0)] == windows[i].1
  {
    hide InsertLinks, InsertWindows, IsRuleRow, AllActive, EventsFit, InstancesFit, KeysUnique, LinksFit, WindowsFit;
    InsertLinksAre(db.assignees, db.nextDefinition, children);
    InsertWindowsAre(db.windows, db.nextDefinition, windows);
  }

  // ----- future instances fit the configuration

  /** Every event-free instance of the scope, due at or after the cutoff, could be written today. */
  ghost predicate FutureFits(db: Db, scope: Scope, cutoff: Day) {
    forall i :: i in db.instances && Doomed(db, i, scope, cutoff) ==> RowFits(db, db.instances[i])
  }

  /** An active definition, an active child it is assigned to, a window it declares, at its due time. */
  ghost predicate RowFits(db: Db, x: Instance) {
    && x.definition in db.definitions && db.definitions[x.definition].isActive
    && x.child in db.children && db.children[x.child].isActive
    && (x.definition, x.child) in db.assignees
    && (x.definition, x.window) in db.windows && db.windows[(x.definition, x.window)] == x.dueTime
  }

  /** The join of the conditional upsert asks for exactly that. */
  lemma MaterializableIff(db: Db, x: Instance)
    ensures Materializable(db, x.definition, x.child, x.window, x.dueTime) <==> RowFits(db, x)
  {}

  /** No tuple of the scope stops being materializable. */
  ghost predicate Stands(db: Db, after: Db, scope: Scope) {
    forall x: Instance :: InScope(x, scope) && RowFits(db, x) ==> RowFits(after, x)
  }

  /** The operation, if the tables take it, ends the tuple: it unlinks, re-times or drops its window, deactivates or
      deletes its definition, or deactivates its child. */
  ghost predicate Drops(db: Db, op: Op, x: Instance) {
    match op
    case SetActiveOp(d, isActive) => !isActive && x.definition == d
    case SetChildActiveOp(c, isActive) => !isActive && x.child == c
    case DeleteDefinitionOp(d) => !HasHistory(db, d) && x.definition == d
    case RemoveAssigneeOp(d, c) => x.definition == d && x.child == c
    case RemoveWindowOp(d, w) => x.definition == d && x.window == w
    case UpsertWindowOp(d, w, t) =>
      w in QUEST_WINDOWS && (t.Some? ==> IsTime(t.value)) && x.definition == d && x.window == w && x.dueTime != t
    case EditOp(d, edit) =>
      EditDefinition(db, d, edit).Some? && x.definition == d &&
      ((edit.children.Some? && x.child !in edit.children.value) ||
       (edit.windows.Some? && (x.window, x.dueTime) !in edit.windows.value))
    case _ => false
  }

  predicate ConfigurationKept(db: Db, after: Db) {
    && after.definitions == db.definitions && after.children == db.children
    && after.assignees == db.assignees && after.windows == db.windows
  }

  lemma SameConfiguration(db: Db, after: Db, x: Instance)
    requires ConfigurationKept(db, after)
    ensures RowFits(after, x) <==> RowFits(db, x)
  {}

  /** No configuration of the tuple is lost. */
  lemma MoreConfiguration(db: Db, after: Db, x: Instance)
    requires RowFits(db, x)
    requires x.definition in after.definitions && after.definitions[x.definition] == db.definitions[x.definition]
    requires x.child in after.children && after.children[x.child] == db.children[x.child]
    requires (x.definition, x.child) in after.assignees
    requires (x.definition, x.window) in after.windows &&
               after.windows[(x.definition, x.window)] == db.windows[(x.definition, x.window)]
    ensures RowFits(after, x)
  {}

  lemma InstanceOpsKeepTuples(db: Db, op: Op, x: Instance)
    requires op.UpsertOp? || op.UpsertIfValidOp? || op.DeleteFutureOp? || op.AppendOp?
             || op.CreateRuleOp? || op.UpdateRuleOp? || op.DeleteRuleOp?
    ensures RowFits(Next(db, op), x) <==> RowFits(db, x)
  {
    hide RowFits;
    KeepsConfiguration(db, op);
    SameConfiguration(db, Next(db, op), x);
  }

  lemma KeepsConfiguration(db: Db, op: Op)
    requires op.UpsertOp? || op.UpsertIfValidOp? || op.DeleteFutureOp? || op.AppendOp?
             || op.CreateRuleOp? || op.UpdateRuleOp? || op.DeleteRuleOp?
    ensures ConfigurationKept(db, Next(db, op))
  {
    hide Upsert, UpsertIfValid, Written, UpdateRule, MayAppend, IsRuleRow, IsReferenced, Doomed, CreateDefinition,
      CreateWithRuleAndWindows, EditDefinition, DeleteIfNoHistory, AddAssignee, RemoveAssignee, UpsertWindow,
      RemoveWindow;
    match op {
      case UpsertOp(row, today) => UpsertFrame(db, row, today);
      case UpsertIfValidOp(row, today) => UpsertFrame(db, row, today);
      case UpdateRuleOp(id, rule) => if UpdateRule(db, id, rule).Some? { UpdateRuleFrame(db, id, rule); }
      case _ =>
    }
  }

  lemma UpsertFrame(db: Db, row: Instance, today: Day)
    ensures Upsert(db, row, today).Row? ==> ConfigurationKept(db, Upsert(db, row, today).db)
    ensures UpsertIfValid(db, row, today).Row? ==> ConfigurationKept(db, UpsertIfValid(db, row, today).db)
  {
    hide IsImmutable, Materializable, QUEST_WINDOWS, Lookup;
  }

  lemma CreationKeepsTuple(db: Db, op: Op, x: Instance)
    requires WellFormed(db) && RowFits(db, x) && (op.CreateDefinitionOp? || op.CreateWithRuleOp? || op.CreateChildOp?)
    ensures RowFits(Next(db, op), x)
  {
    hide EventsFit, InstancesFit, KeysUnique, LinksFit, WindowsFit, RulesFit, InsertLinks, InsertWindows, IsRuleRow,
      AllActive, CreateWithRuleAndWindows;
    var after := Next(db, op);
    match op {
      case CreateDefinitionOp(title, rule, isActive, children) =>
        if CreateDefinition(db, title, rule, isActive, children).Some? {
          InsertLinksAre(db.assignees, db.nextDefinition, children);
        }
      case CreateWithRuleOp(title, rule, children, windows) =>
        if CreateWithRuleAndWindows(db, title, rule, children, windows).Some? {
          CreateIsExact(db, title, rule, children, windows);
        }
      case _ =>
    }
    MoreConfiguration(db, after, x);
  }

  lemma EditKeepsTupleIff(db: Db, d: nat, edit: Edit, x: Instance)
    requires WellFormed(db) && RowFits(db, x)
    ensures RowFits(Next(db, EditOp(d, edit)), x) <==> !Drops(db, EditOp(d, edit), x)
  {
    hide EditDefinition, QUEST_WINDOWS, IsRuleRow, EventsFit, InstancesFit, KeysUnique, LinksFit, WindowsFit, RulesFit,
      ChildrenFit;
    if EditDefinition(db, d, edit).Some? {
      EditIsExact(db, d, edit);
      var after := EditDefinition(db, d, edit).value;
      if x.definition == d {
        EditedTuple(db, after, edit, x);
      } else {
        MoreConfiguration(db, after, x);
      }
    }
  }

  lemma EditedTuple(db: Db, after: Db, edit: Edit, x: Instance)
    requires RowFits(db, x) && after.children == db.children && RowEdited(db, after, x.definition, edit)
    requires LinksEdited(db, after, x.definition, edit) && WindowsEdited(db, after, x.definition, edit)
    ensures RowFits(after, x) <==>
              && (edit.children.Some? ==> x.child in edit.children.value)
              && (edit.windows.Some? ==> (x.window, x.dueTime) in edit.windows.value)
  {
    hide QUEST_WINDOWS, IsRuleRow;
    if edit.windows.Some? && (x.definition, x.window) in after.windows {
      var i :| 0 <= i < |edit.windows.value| && edit.windows.value[i].0 == x.window;
      assert edit.windows.value[i] == (x.window, after.windows[(x.definition, x.window)]);
    }
  }

  lemma DeletionKeepsTupleIff(db: Db, d: nat, x: Instance)
    requires RowFits(db, x)
    ensures RowFits(Next(db, DeleteDefinitionOp(d)), x) <==> !Drops(db, DeleteDefinitionOp(d), x)
  {
    hide HasHistory, IsReferenced;
    if d in db.definitions && !HasHistory(db, d) && x.definition != d {
      MoreConfiguration(db, Next(db, DeleteDefinitionOp(d)), x);
    }
  }

  /** Whatever is done, a tuple that could be written still can, exactly unless the operation drops it. */
  lemma TupleSurvivesIff(db: Db, op: Op, x: Instance)
    requires WellFormed(db) && RowFits(db, x)
    ensures RowFits(Next(db, op), x) <==> !Drops(db, op, x)
  {
    hide WellFormed, IsTime, QUEST_WINDOWS, HasHistory, EditDefinition, CreateDefinition, CreateWithRuleAndWindows,
      DeleteIfNoHistory, Upsert, UpsertIfValid, CreateRule, UpdateRule, DeleteRuleIfUnreferenced, MayAppend,
      AddAssignee, RemoveAssignee, UpsertWindow, RemoveWindow, SetActive, SetChildActive, CreateChild, Materializable;
    match op {
      case SetActiveOp(d, isActive) => ActivityKeepsTupleIff(db, op, x);
      case SetChildActiveOp(c, isActive) => ActivityKeepsTupleIff(db, op, x);
      case DeleteDefinitionOp(d) => DeletionKeepsTupleIff(db, d, x);
      case RemoveAssigneeOp(d, c) => MaterializableAfter(db, d, c, "", None, true, x);
      case RemoveWindowOp(d, w) => MaterializableAfter(db, d, 0, w, None, true, x);
      case AddAssigneeOp(d, c) => MaterializableAfter(db, d, c, "", None, true, x);
      case UpsertWindowOp(d, w, t) => WindowKeepsTupleIff(db, d, w, t, x);
      case EditOp(d, edit) => EditKeepsTupleIff(db, d, edit, x);
      case CreateDefinitionOp(_, _, _, _) => CreationKeepsTuple(db, op, x);
      case CreateWithRuleOp(_, _, _, _) => CreationKeepsTuple(db, op, x);
      case CreateChildOp(_) => CreationKeepsTuple(db, op, x);
      case _ => InstanceOpsKeepTuples(db, op, x);
    }
  }

  lemma WindowKeepsTupleIff(db: Db, d: nat, w: string, t: Option<string>, x: Instance)
    requires RowFits(db, x)
    ensures RowFits(Next(db, UpsertWindowOp(d, w, t)), x) <==> !Drops(db, UpsertWindowOp(d, w, t), x)
  {
    hide IsTime, QUEST_WINDOWS, RowFits;
    MaterializableAfter(db, d, 0, w, t, true, x);
    assert x.dueTime == t ==> x.(dueTime := t) == x;
    FitsDefinition(db, x);
  }

  lemma FitsDefinition(db: Db, x: Instance)
    requires RowFits(db, x)
    ensures x.definition in db.definitions && x.child in db.children
  {}

  lemma ActivityKeepsTupleIff(db: Db, op: Op, x: Instance)
    requires RowFits(db, x) && (op.SetActiveOp? || op.SetChildActiveOp?)
    ensures RowFits(Next(db, op), x) <==> !Drops(db, op, x)
  {}

  /** The scope's tuples all stand exactly when the operation drops none of them. */
  lemma StandsIff(db: Db, op: Op, scope: Scope)
    requires WellFormed(db)
    ensures Stands(db, Next(db, op), scope) <==>
            forall x: Instance :: InScope(x, scope) && RowFits(db, x) ==> !Drops(db, op, x)
  {
    hide WellFormed, RowFits, Drops, Next;
    forall x: Instance | RowFits(db, x) ensures RowFits(Next(db, op), x) <==> !Drops(db, op, x) {
      TupleSurvivesIff(db, op, x);
    }
  }

  /** The definition has instances of the scope to come. */
  predicate Concerns(db: Db, scope: Scope, definition: nat) {
    match scope
    case OfDefinition(d) => d == definition
    case OfChild(c) => (definition, c) in db.assignees
  }

  /** By its arguments and the links and windows that stand, the operation takes nothing from the scope: it unlinks
      nobody of it, drops and re-times no window of it, and deactivates and deletes none of it. An edit spares it that
      gives every child of the scope and every window, with its due time, again. */
  ghost predicate Spares(db: Db, op: Op, scope: Scope) {
    match op
    case SetActiveOp(d, isActive) => isActive || !Concerns(db, scope, d)
    case SetChildActiveOp(c, isActive) =>
      isActive || (match scope case OfDefinition(d) => (d, c) !in db.assignees case OfChild(e) => c != e)
    case DeleteDefinitionOp(d) => HasHistory(db, d) || !Concerns(db, scope, d)
    case RemoveAssigneeOp(d, c) =>
      (d, c) !in db.assignees || (match scope case OfDefinition(e) => d != e case OfChild(e) => c != e)
    case RemoveWindowOp(d, w) => (d, w) !in db.windows || !Concerns(db, scope, d)
    case UpsertWindowOp(d, w, t) => ((d, w) in db.windows ==> db.windows[(d, w)] == t) || !Concerns(db, scope, d)
    case EditOp(d, edit) =>
      Concerns(db, scope, d) ==>
        && (edit.children.Some? ==>
              forall c :: (d, c) in db.assignees && (scope.OfChild? ==> c == scope.child) ==> c in edit.children.value)
        && (edit.windows.Some? ==>
              forall w :: (d, w) in db.windows ==> (w, db.windows[(d, w)]) in edit.windows.value)
    case _ => true
  }

  lemma SparedIsNotDropped(db: Db, op: Op, scope: Scope, x: Instance)
    requires Spares(db, op, scope) && InScope(x, scope) && RowFits(db, x)
    ensures !Drops(db, op, x)
  {
    hide HasHistory, EditDefinition, IsTime, QUEST_WINDOWS;
  }

  lemma SparesStands(db: Db, op: Op, scope: Scope)
    requires WellFormed(db) && Spares(db, op, scope)
    ensures Stands(db, Next(db, op), scope)
  {
    hide WellFormed, RowFits, Drops, Next, Spares;
    StandsIff(db, op, scope);
    forall x: Instance | InScope(x, scope) && RowFits(db, x) ensures !Drops(db, op, x) {
      SparedIsNotDropped(db, op, scope, x);
    }
  }

  /** Each operation of the run spares the scope of the tables it finds. */
  ghost predicate SparesThroughout(db: Db, run: seq<Op>, scope: Scope)
    decreases |run|
  {
    run == [] || (Spares(db, run[0], scope) && SparesThroughout(Next(db, run[0]), run[1..], scope))
  }

  lemma {:induction false} SparesStandsThroughout(db: Db, run: seq<Op>, scope: Scope)
    requires WellFormed(db) && SparesThroughout(db, run, scope)
    ensures StandsThroughout(db, run, scope)
    decreases |run|
  {
    hide WellFormed, Spares, Stands, Next, KeepsHistory;
    if run != [] {
      SparesStands(db, run[0], scope);
      NextKeeps(db, run[0]);
      SparesStandsThroughout(Next(db, run[0]), run[1..], scope);
    }
  }

  ghost predicate StandsThroughout(db: Db, run: seq<Op>, scope: Scope)
    decreases |run|
  {
    run == [] || (Stands(db, Next(db, run[0]), scope) && StandsThroughout(Next(db, run[0]), run[1..], scope))
  }

  /** The generic upsert is not used on the scope. */
  ghost predicate WalksOnly(run: seq<Op>, scope: Scope) {
    forall k :: 0 <= k < |run| && run[k].UpsertOp? ==> !InScope(run[k].row, scope)
  }

  /** Regeneration's delete leaves nothing of the scope at or after the cutoff it applied. */
  lemma DeleteFutureFits(db: Db, scope: Scope, cutoff: Day, today: Day)
    ensures FutureFits(DeleteFuture(db, scope, cutoff, today), scope, Max(cutoff, today))
    ensures forall i :: i in db.instances ==>
              (i !in DeleteFuture(db, scope, cutoff, today).instances <==> Doomed(db, i, scope, Max(cutoff, today)))
  {
    hide HasEvent, RowFits;
  }

  /** A row appears or changes only by an upsert. */
  ghost predicate OnlyFewer(db: Db, after: Db) {
    && db.events <= after.events
    && forall i :: i in after.instances ==> i in db.instances && after.instances[i] == db.instances[i]
  }

  lemma FewerStillFit(db: Db, after: Db, scope: Scope, cutoff: Day)
    requires FutureFits(db, scope, cutoff) && OnlyFewer(db, after) && Stands(db, after, scope)
    ensures FutureFits(after, scope, cutoff)
  {
    hide RowFits, HasEvent;
    forall i | i in after.instances && Doomed(after, i, scope, cutoff) ensures RowFits(after, after.instances[i]) {
      EventsStay(db.events, after.events, i);
      assert Doomed(db, i, scope, cutoff);
    }
  }

  lemma EventsStay(a: seq<LogEvent>, b: seq<LogEvent>, i: nat)
    requires a <= b
    ensures HasEvent(a, i) ==> HasEvent(b, i)
  {
    if HasEvent(a, i) {
      var k :| 0 <= k < |a| && a[k].instance == i;
      assert b[k].instance == i;
    }
  }

  lemma WrittenStillFits(db: Db, x: Instance, scope: Scope, cutoff: Day)
    requires FutureFits(db, scope, cutoff) && (InScope(x, scope) ==> RowFits(db, x))
    ensures FutureFits(Written(db, x), scope, cutoff)
  {
    hide HasEvent;
    var after := Written(db, x);
    forall i | i in after.instances && Doomed(after, i, scope, cutoff) ensures RowFits(after, after.instances[i]) {
      assert i in db.instances && after.instances[i] == db.instances[i] ==> Doomed(db, i, scope, cutoff);
    }
  }

  lemma OthersOnlyFewer(db: Db, op: Op)
    requires WellFormed(db) && !op.UpsertOp? && !op.UpsertIfValidOp?
    ensures OnlyFewer(db, Next(db, op))
  {
    hide WellFormed, InsertLinks, InsertWindows, ReplaceLinks, AllActive, IsRuleRow, IsTime, MayAppend, HasHistory,
      IsReferenced, Doomed, WithoutWindows, WithoutLinks, EditDefinition, CreateDefinition, CreateWithRuleAndWindows,
      Upsert, UpsertIfValid, UpdateRule;
    match op {
      case UpdateRuleOp(id, rule) => if UpdateRule(db, id, rule).Some? { UpdateRuleFrame(db, id, rule); }
      case EditOp(d, edit) => EditOnlyFewer(db, d, edit);
      case CreateDefinitionOp(title, rule, isActive, children) => CreateOnlyFewer(db, title, rule, isActive, children);
      case CreateWithRuleOp(title, rule, children, windows) => CreateAllOnlyFewer(db, title, rule, children, windows);
      case _ =>
    }
  }

  lemma UpdateRuleFrame(db: Db, id: nat, rule: Rule)
    requires UpdateRule(db, id, rule).Some?
    ensures UpdateRule(db, id, rule).value == db.(rules := UpdateRule(db, id, rule).value.rules)
  {
    hide IsRuleRow;
  }

  /** An edit leaves the instances and the log alone, accepted or not. */
  lemma EditFrame(db: Db, definition: nat, edit: Edit)
    ensures Or(EditDefinition(db, definition, edit), db).instances == db.instances
    ensures Or(EditDefinition(db, definition, edit), db).events == db.events
  {
    hide InsertWindows, ReplaceLinks, AllActive, WithoutWindows, UpdateRule;
    if definition in db.definitions && edit.rule.Some? {
      var was := db.definitions[definition];
      var titled := if edit.title.None? then db
                    else db.(definitions := db.definitions[definition := was.(title := edit.title.value)]);
      if UpdateRule(titled, was.rule, edit.rule.value).Some? { UpdateRuleFrame(titled, was.rule, edit.rule.value); }
    }
  }

  lemma EditOnlyFewer(db: Db, definition: nat, edit: Edit)
    ensures OnlyFewer(db, Or(EditDefinition(db, definition, edit), db))
  {
    EditFrame(db, definition, edit);
    hide EditDefinition, Or;
  }

  lemma CreateOnlyFewer(db: Db, title: string, rule: nat, isActive: bool, children: seq<nat>)
    ensures OnlyFewer(db, Or(CreateDefinition(db, title, rule, isActive, children), db))
  {
    hide InsertLinks, AllActive;
  }

  lemma CreateAllOnlyFewer(db: Db, title: string, rule: Rule, children: seq<nat>,
      windows: seq<(string, Option<string>)>)
    ensures OnlyFewer(db, Or(CreateWithRuleAndWindows(db, title, rule, children, windows), db))
  {
    hide InsertLinks, InsertWindows, AllActive, IsRuleRow;
  }

  lemma NextStillFits(db: Db, op: Op, scope: Scope, cutoff: Day)
    requires WellFormed(db) && FutureFits(db, scope, cutoff) && Stands(db, Next(db, op), scope)
    requires op.UpsertOp? ==> !InScope(op.row, scope)
    ensures FutureFits(Next(db, op), scope, cutoff)
  {
    hide FutureFits, WellFormed, Materializable, IsImmutable, Written, OnlyFewer;
    match op {
      case UpsertOp(x, today) =>
        if Upsert(db, x, today).Row? { WrittenStillFits(db, x, scope, cutoff); }
      case UpsertIfValidOp(x, today) =>
        MaterializableIff(db, x);
        if UpsertIfValid(db, x, today).Row? { WrittenStillFits(db, x, scope, cutoff); }
      case _ =>
        OthersOnlyFewer(db, op);
        FewerStillFit(db, Next(db, op), scope, cutoff);
    }
  }

  lemma {:induction false} RunStillFits(db: Db, run: seq<Op>, scope: Scope, cutoff: Day)
    requires WellFormed(db) && FutureFits(db, scope, cutoff) && StandsThroughout(db, run, scope) &&
               WalksOnly(run, scope)
    ensures FutureFits(Exec(db, run), scope, cutoff)
    decreases |run|
  {
    hide WellFormed, FutureFits, Stands, KeepsHistory, Next;
    if run != [] {
      NextStillFits(db, run[0], scope, cutoff);
      NextKeeps(db, run[0]);
      RunStillFits(Next(db, run[0]), run[1..], scope, cutoff);
    }
  }

  /** Once regeneration has deleted the future of a definition, or of a child, then as long as every operation
      spares it, whatever else is done, and however stale the walkers that upsert into it, every event-free
      instance of it due at or after the cutoff fits the live configuration. */
  lemma FutureStaysValid(before: seq<Op>, scope: Scope, cutoff: Day, today: Day, run: seq<Op>)
    requires var db := Exec(EMPTY, before + [DeleteFutureOp(scope, cutoff, today)]);
             SparesThroughout(db, run, scope) && WalksOnly(run, scope)
    ensures var after := Exec(EMPTY, before + [DeleteFutureOp(scope, cutoff, today)] + run);
            FutureFits(after, scope, Max(cutoff, today)) && KeysUnique(after)
  {
    hide Next, FutureFits, StandsThroughout, SparesThroughout, WalksOnly, KeepsHistory, KeysUnique;
    var op := DeleteFutureOp(scope, cutoff, today);
    EmptyIsWellFormed();
    ExecKeeps(EMPTY, before);
    ExecKeeps(EMPTY, before + [op]);
    ExecKeeps(EMPTY, before + [op] + run);
    ExecConcat(EMPTY, before, [op]);
    ExecConcat(EMPTY, before + [op], run);
    var db := Exec(EMPTY, before);
    assert Exec(db, [op]) == Next(db, op) by { assert [op][1..] == []; }
    DeleteIsNext(db, scope, cutoff, today);
    DeleteFutureFits(db, scope, cutoff, today);
    SparesStandsThroughout(Exec(EMPTY, before + [op]), run, scope);
    RunStillFits(Exec(EMPTY, before + [op]), run, scope, Max(cutoff, today));
  }

  lemma DeleteIsNext(db: Db, scope: Scope, cutoff: Day, today: Day)
    ensures Next(db, DeleteFutureOp(scope, cutoff, today)) == DeleteFuture(db, scope, cutoff, today)
  {}

  /** The generic upsert keeps that exactly when the tuple it writes could have been walked. */
  lemma UpsertStillFitsIff(db: Db, x: Instance, today: Day, scope: Scope, cutoff: Day)
    requires WellFormed(db) && FutureFits(db, scope, cutoff) && InScope(x, scope) && cutoff <= x.dueDate
    requires Upsert(db, x, today).Row?
    ensures FutureFits(Upsert(db, x, today).db, scope, cutoff) <==> RowFits(db, x)
  {
    hide RowFits, QUEST_WINDOWS;
    if RowFits(db, x) {
      WrittenStillFits(db, x, scope, cutoff);
    } else {
      WrittenRow(db, x, scope, cutoff);
    }
  }

  lemma WrittenRow(db: Db, x: Instance, scope: Scope, cutoff: Day)
    requires WellFormed(db) && !IsImmutable(db, x) && InScope(x, scope) && cutoff <= x.dueDate && !RowFits(db, x)
    ensures !FutureFits(Written(db, x), scope, cutoff)
  {
    hide HasEvent;
    var after := Written(db, x);
    var found := Lookup(db.instances, db.nextInstance, x.definition, x.child, x.dueDate, x.window);
    var i := if found.Some? then found.value else db.nextInstance;
    NewHasNoEvent(db);
    assert Doomed(after, i, scope, cutoff);
    assert !RowFits(after, after.instances[i]);
  }

  lemma NewHasNoEvent(db: Db)
    requires WellFormed(db)
    ensures !HasEvent(db.events, db.nextInstance)
  {
    forall k | 0 <= k < |db.events| ensures db.events[k].instance != db.nextInstance {
      assert EventFits(db.events[k], db.instances, db.children);
    }
  }

  /** Only an append writes to the log. */
  lemma LogUnchanged(db: Db, op: Op)
    requires !op.AppendOp?
    ensures Next(db, op).events == db.events
  {
    hide InsertLinks, InsertWindows, ReplaceLinks, AllActive, IsRuleRow, IsTime, HasHistory, IsReferenced, Doomed,
      WithoutWindows, WithoutLinks, Materializable, IsImmutable, Lookup, EditDefinition, CreateDefinition,
      CreateWithRuleAndWindows;
    match op {
      case EditOp(d, edit) => EditLeavesLog(db, d, edit);
      case CreateDefinitionOp(title, rule, isActive, children) => CreateLeavesLog(db, title, rule, isActive, children);
      case CreateWithRuleOp(title, rule, children, windows) => CreateAllLeavesLog(db, title, rule, children, windows);
      case _ =>
    }
  }

  lemma EditLeavesLog(db: Db, definition: nat, edit: Edit)
    ensures Or(EditDefinition(db, definition, edit), db).events == db.events
  {
    EditFrame(db, definition, edit);
    hide EditDefinition, Or;
  }

  lemma CreateLeavesLog(db: Db, title: string, rule: nat, isActive: bool, children: seq<nat>)
    ensures Or(CreateDefinition(db, title, rule, isActive, children), db).events == db.events
  {
    hide InsertLinks, AllActive;
  }

  lemma CreateAllLeavesLog(db: Db, title: string, rule: Rule, children: seq<nat>,
      windows: seq<(string, Option<string>)>)
    ensures Or(CreateWithRuleAndWindows(db, title, rule, children, windows), db).events == db.events
  {
    hide InsertLinks, InsertWindows, AllActive, IsRuleRow;
  }
}
