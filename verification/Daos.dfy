/** The data-access objects as they run: statement by statement over one connection, inside one transaction
    under the connection lock (custom_components/nestquest/core/dao_instances.py and dao_rules.py). */
module Daos {
  import opened Options
  import opened Tables

  /** The tables behind the connection. */
  class Database {
    var db: Db

    constructor ()
      ensures db == EMPTY
    {
      db := EMPTY;
    }
  }

  datatype Saved = Stored(id: nat, row: Instance) | NotWritten | Rejected

  class QuestInstancesDao {
    const database: Database

    constructor (database: Database)
      ensures this.database == database
    {
      this.database := database;
    }

    /** INSERT … ON CONFLICT, and the row read back. */
    method Write(x: Instance) returns (id: nat, row: Instance)
      modifies database
      ensures database.db == Written(old(database.db), x)
      ensures id in database.db.instances && row == database.db.instances[id]
      ensures HasKey(row, x.definition, x.child, x.dueDate, x.window) && row.dueTime == x.dueTime
    {
      var db := database.db;
      var found := Lookup(db.instances, db.nextInstance, x.definition, x.child, x.dueDate, x.window);
      if found.Some? {
        id := found.value;
        row := db.instances[id].(dueTime := x.dueTime, generatedAt := x.generatedAt);
        database.db := db.(instances := db.instances[id := row]);
      } else {
        id, row := db.nextInstance, x;
        database.db := db.(instances := db.instances[id := x], nextInstance := id + 1);
      }
    }

    method ExistingHasEvent(x: Instance) returns (b: bool)
      ensures b == IsImmutable(database.db, x)
    {
      var db := database.db;
      var found := Lookup(db.instances, db.nextInstance, x.definition, x.child, x.dueDate, x.window);
      b := found.Some? && HasEvent(db.events, found.value);
    }

    /** `called`: the date when the call was made; `today`: the date once the lock is held. */
    method Upsert(x: Instance, called: Day, today: Day) returns (r: Saved)
      modifies database
      ensures x.dueDate < called ==> r == Rejected && database.db == old(database.db)
      ensures called <= x.dueDate ==>
                && database.db == Next(old(database.db), UpsertOp(x, today))
                && r.Stored? == Tables.Upsert(old(database.db), x, today).Row? && !r.NotWritten?
      ensures r.Stored? ==> r.id in database.db.instances && database.db.instances[r.id] == r.row
                            && HasKey(r.row, x.definition, x.child, x.dueDate, x.window) && r.row.dueTime == x.dueTime
    {
      hide Written, IsImmutable, Lookup, HasKey;
      if x.window !in QUEST_WINDOWS || x.dueDate < called { return Rejected; }
      if x.dueDate < today { return Rejected; }
      if x.definition !in database.db.definitions { return Rejected; }
      if (x.definition, x.child) !in database.db.assignees { return Rejected; }
      var existing := ExistingHasEvent(x);
      if existing { return Rejected; }
      var id, row := Write(x);
      return Stored(id, row);
    }

    method UpsertIfValid(x: Instance, called: Day, today: Day) returns (r: Saved)
      modifies database
      ensures x.dueDate < called ==> r == Rejected && database.db == old(database.db)
      ensures called <= x.dueDate ==>
                && database.db == Next(old(database.db), UpsertIfValidOp(x, today))
                && r.Stored? == Tables.UpsertIfValid(old(database.db), x, today).Row?
                && r.NotWritten? == Tables.UpsertIfValid(old(database.db), x, today).Skipped?
      ensures r.Stored? ==> r.id in database.db.instances && database.db.instances[r.id] == r.row
                            && HasKey(r.row, x.definition, x.child, x.dueDate, x.window) && r.row.dueTime == x.dueTime
    {
      hide Written, IsImmutable, Lookup, HasKey, Materializable;
      if x.window !in QUEST_WINDOWS || x.dueDate < called { return Rejected; }
      if x.dueDate < today { return Rejected; }
      if !Materializable(database.db, x.definition, x.child, x.window, x.dueTime) { return NotWritten; }
      var existing := ExistingHasEvent(x);
      if existing { return NotWritten; }
      var id, row := Write(x);
      return Stored(id, row);
    }

    method DeleteFutureUncompleted(scope: Scope, cutoff: Day, today: Day) returns (deleted: int, effective: Day)
      modifies database
      ensures database.db == Next(old(database.db), DeleteFutureOp(scope, cutoff, today))
      ensures effective == Max(cutoff, today)
      ensures deleted == |old(database.db).instances| - |database.db.instances|
    {
      var db := database.db;
      effective := if cutoff < today then today else cutoff;
      var rest := map i | i in db.instances && !Doomed(db, i, scope, effective) :: db.instances[i];
      deleted := |db.instances| - |rest|;
      database.db := db.(instances := rest);
    }
  }

  class CompletionEventsDao {
    const database: Database

    constructor (database: Database)
      ensures this.database == database
    {
      this.database := database;
    }

    method AppendEvent(e: LogEvent) returns (ok: bool)
      modifies database
      ensures ok == MayAppend(old(database.db), e)
      ensures database.db == Next(old(database.db), AppendOp(e))
    {
      if e.source !in {"user", "panel"} { return false; }
      if e.source == "user" && (e.userId.None? || e.userId.value == "") { return false; }
      if e.source == "panel" && e.userId.Some? { return false; }
      if e.source == "panel" && e.tapped.None? { return false; }
      if e.source == "user" && e.tapped.Some? { return false; }
      if e.kind == Completed && e.wasOnTime.None? { return false; }
      var db := database.db;
      if e.instance !in db.instances { return false; }
      if db.instances[e.instance].child != e.child { return false; }
      if e.child !in db.children { return false; }
      if e.tapped.Some? && e.tapped.value !in db.children { return false; }
      database.db := db.(events := db.events + [e]);
      return true;
    }

    method GetLatestForInstance(i: nat) returns (e: Option<LogEvent>)
      ensures e.None? <==> !HasEvent(database.db.events, i)
      ensures e.Some? ==> exists k :: 0 <= k < |database.db.events| && database.db.events[k] == e.value
                            && e.value.instance == i
                            && forall j :: k < j < |database.db.events| ==> database.db.events[j].instance != i
    {
      var events := database.db.events;
      var k := Latest(events, |events|, i);
      if k.None? { return None; }
      return Some(events[k.value]);
    }
  }

  class QuestDefinitionsDao {
    const database: Database

    constructor (database: Database)
      ensures this.database == database
    {
      this.database := database;
    }

    /** DELETE and re-INSERT of the window rows; `false` leaves them half written for the rollback. */
    method ReplaceWindows(definition: nat, windows: seq<(string, Option<string>)>) returns (ok: bool)
      modifies database
      ensures var declared := InsertWindows(WithoutWindows(old(database.db).windows, definition), definition, windows);
              ok == declared.Some? &&
              (ok ==> database.db == old(database.db).(windows := declared.value))
    {
      hide IsTime, QUEST_WINDOWS;
      ghost var was := database.db;
      database.db := database.db.(windows := WithoutWindows(database.db.windows, definition));
      ghost var declared := InsertWindows(database.db.windows, definition, windows);
      for i := 0 to |windows|
        invariant InsertWindows(database.db.windows, definition, windows[i..]) == declared
        invariant database.db == was.(windows := database.db.windows)
      {
        var (window, dueTime) := windows[i];
        assert windows[i..][0] == windows[i] && windows[i..][1..] == windows[i + 1..];
        if window !in QUEST_WINDOWS { return false; }
        if dueTime.Some? && !IsTime(dueTime.value) { return false; }
        if (definition, window) in database.db.windows { return false; }
        database.db := database.db.(windows := database.db.windows[(definition, window) := dueTime]);
      }
      return true;
    }

    /** `_replace_assignees`. */
    method ReplaceAssignees(definition: nat, children: seq<nat>) returns (ok: bool)
      modifies database
      ensures var linked := ReplaceLinks(old(database.db).assignees, definition, children);
              ok == linked.Some? &&
              (ok ==> database.db == old(database.db).(assignees := linked.value))
    {
      var was := database.db;
      var wanted := set c | c in children;
      var gone := set p | p in was.assignees && p.0 == definition && p.1 !in wanted;
      while gone != {}
        invariant database.db == was.(assignees := database.db.assignees)
        invariant database.db.assignees == WithoutLinks(was.assignees, definition, wanted) + gone
        decreases gone
      {
        var p :| p in gone;
        gone := gone - {p};
        database.db := database.db.(assignees := database.db.assignees - {p});
      }
      assert database.db.assignees == WithoutLinks(was.assignees, definition, wanted);
      ghost var linked := ReplaceLinks(was.assignees, definition, children);
      assert children[0..] == children;
      for i := 0 to |children|
        invariant database.db == was.(assignees := database.db.assignees)
        invariant InsertLinks(database.db.assignees, definition, Missing(was.assignees, definition, children[i..])) ==
                    linked
      {
        var child := children[i];
        assert children[i..][0] == child && children[i..][1..] == children[i + 1..];
        if (definition, child) !in was.assignees {
          MissingHead(was.assignees, definition, children[i..]);
          if (definition, child) in database.db.assignees { return false; }
          database.db := database.db.(assignees := database.db.assignees + {(definition, child)});
        }
      }
      return true;
    }

    /** All of the edit, or nothing: a failure anywhere rolls the transaction back. */
    method Edit(definition: nat, edit: Tables.Edit) returns (ok: bool)
      modifies database
      ensures ok == EditDefinition(old(database.db), definition, edit).Some?
      ensures database.db == Next(old(database.db), EditOp(definition, edit))
    {
      hide InsertWindows, ReplaceLinks, IsRuleRow, InsertLinks, Missing;
      var before := database.db;
      if definition !in before.definitions { return false; }
      if edit.children.Some? {
        var valid := AllActive(before, edit.children.value);
        if !valid { return false; }
      }
      var was := before.definitions[definition];
      if edit.title.Some? {
        database.db := before.(definitions := before.definitions[definition := was.(title := edit.title.value)]);
      }
      if edit.rule.Some? {
        if !IsRuleRow(edit.rule.value) { database.db := before; return false; }
        if was.rule in database.db.rules {
          database.db := database.db.(rules := database.db.rules[was.rule := edit.rule.value]);
        }
      }
      if edit.windows.Some? {
        var declared := ReplaceWindows(definition, edit.windows.value);
        if !declared { database.db := before; return false; }
      }
      if edit.children.Some? {
        var linked := ReplaceAssignees(definition, edit.children.value);
        if !linked { database.db := before; return false; }
      }
      return true;
    }

    /** `None` when there is no such definition, `Some(false)` when its history keeps it. */
    method DeleteIfNoHistory(definition: nat) returns (r: Option<bool>)
      modifies database
      ensures database.db == Next(old(database.db), DeleteDefinitionOp(definition))
      ensures r == match Tables.DeleteIfNoHistory(old(database.db), definition)
                   case Absent => None
                   case Kept => Some(false)
                   case Deleted(_) => Some(true)
    {
      var db := database.db;
      if definition !in db.definitions { return None; }
      var rule := db.definitions[definition].rule;
      if HasHistory(db, definition) { return Some(false); }
      database.db := database.db.(
        instances := map i | i in db.instances && db.instances[i].definition != definition :: db.instances[i]);
      database.db := database.db.(assignees := WithoutLinks(db.assignees, definition, {}));
      database.db := database.db.(windows := WithoutWindows(db.windows, definition));
      database.db := database.db.(definitions := db.definitions - {definition});
      if !IsReferenced(database.db, rule) {
        database.db := database.db.(rules := database.db.rules - {rule});
      }
      return Some(true);
    }
  }

  lemma MissingHead(links: set<(nat, nat)>, definition: nat, children: seq<nat>)
    requires children != [] && (definition, children[0]) !in links
    ensures var missing := Missing(links, definition, children);
            missing != [] && missing[0] == children[0] && missing[1..] == Missing(links, definition, children[1..])
  {}
}
