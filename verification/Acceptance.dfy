/** When each operation on the chore tables is accepted, and what it then leaves, in terms of the rows alone
    (custom_components/nestquest/core/dao_instances.py, dao_rules.py). */
module Acceptance {
  import opened Options
  import opened Tables
  import RuleCodec
  import IsoDates

  // ----- texts the CHECK constraints take

  lemma WindowsAre(w: string)
    ensures w in QUEST_WINDOWS <==> w == "morning" || w == "afternoon" || w == "evening"
  {}

  /** A due time is HH:MM: the two-digit texts of an hour and a minute. */
  ghost predicate IsClock(s: string) {
    exists h: nat, m: nat :: h < 24 && m < 60 && s == Clock(h, m)
  }

  ghost function Clock(h: nat, m: nat): string {
    IsoDates.Padded(h, 2) + ":" + IsoDates.Padded(m, 2)
  }

  lemma IsTimeIff(s: string)
    ensures IsTime(s) <==> IsClock(s)
  {
    IsoDates.Powers();
    hide IsoDates.Padded, IsoDates.Number, IsoDates.Power;
    if IsTime(s) {
      IsoDates.PaddedOfNumber(s[..2]);
      IsoDates.PaddedOfNumber(s[3..]);
      assert s == s[..2] + ":" + s[3..];
      assert s == Clock(IsoDates.Number(s[..2]), IsoDates.Number(s[3..]));
    }
    if h: nat, m: nat :| h < 24 && m < 60 && s == Clock(h, m) {
      IsoDates.NumberOfPadded(h, 2);
      IsoDates.NumberOfPadded(m, 2);
      assert s[..2] == IsoDates.Padded(h, 2) && s[3..] == IsoDates.Padded(m, 2);
    }
  }

  ghost predicate IsDay(s: string) {
    exists d :: IsoDates.IsDate(d) && s == IsoDates.Isoformat(d)
  }

  lemma IsDayIff(s: string)
    ensures IsoDates.ParseDate(s).Some? <==> IsDay(s)
  {
    hide IsoDates.ParseDate, IsoDates.Isoformat;
    if IsoDates.ParseDate(s).Some? { IsoDates.ParseDateIff(s, IsoDates.ParseDate(s).value); }
    if d :| IsoDates.IsDate(d) && s == IsoDates.Isoformat(d) { IsoDates.ParseDateIff(s, d); }
  }

  /** A rule's row is stored exactly with a start date and an end that is none before it, an interval of 1 or more, a
      column that is a list of up to seven weekdays, numbers in their ranges, and the columns its type needs. */
  lemma RuleRowIff(r: Rule)
    ensures IsRuleRow(r) <==>
              && IsDay(r.startDate) && 1 <= r.interval
              && (r.endDate.Some? ==> IsDay(r.endDate.value) && !IsoDates.TextBefore(r.endDate.value, r.startDate))
              && (r.weekdaySet.Some? ==> exists days :: RuleCodec.IsWeekdayList(r.weekdaySet.value, days))
              && (r.dayOfMonth.Some? ==> 1 <= r.dayOfMonth.value <= 31)
              && (r.nthWeekday.Some? ==> -1 <= r.nthWeekday.value <= 5 && r.nthWeekday.value != 0)
              && (r.month.Some? ==> 1 <= r.month.value <= 12)
              && match r.ruleType
                 case "weekly" => r.weekdaySet.Some?
                 case "monthly" => r.dayOfMonth.Some? || r.nthWeekday.Some?
                 case "yearly" => r.month.Some?
                 case _ =>
                   (r.ruleType == "daily" || r.ruleType == "custom")
                   && r.dayOfMonth.None? && r.nthWeekday.None? && r.month.None?
  {
    hide IsDay, IsoDates.ParseDate, IsoDates.TextBefore, RuleCodec.MatchesGlob, RuleCodec.IsWeekdayList;
    IsDayIff(r.startDate);
    if r.endDate.Some? { IsDayIff(r.endDate.value); }
    if r.weekdaySet.Some? { RuleCodec.MatchesGlobIff(r.weekdaySet.value); }
  }

  // ----- instances

  /** The row of the key, if there is one, has a completion event. */
  ghost predicate IsTaken(db: Db, x: Instance) {
    exists i, k :: IsTakenBy(db, x, i, k)
  }

  ghost predicate IsTakenBy(db: Db, x: Instance, i: nat, k: nat) {
    && i in db.instances && k < |db.events| && db.events[k].instance == i
    && db.instances[i].definition == x.definition && db.instances[i].child == x.child
    && db.instances[i].dueDate == x.dueDate && db.instances[i].window == x.window
  }

  lemma ImmutableIff(db: Db, x: Instance)
    requires WellFormed(db)
    ensures IsImmutable(db, x) <==> IsTaken(db, x)
  {
    hide Lookup, EventsFit, DefinitionsFit, LinksFit, WindowsFit, RulesFit, ChildrenFit;
    var found := Lookup(db.instances, db.nextInstance, x.definition, x.child, x.dueDate, x.window);
    if IsImmutable(db, x) {
      var k :| 0 <= k < |db.events| && db.events[k].instance == found.value;
      assert IsTakenBy(db, x, found.value, k);
    }
    if i, k :| IsTakenBy(db, x, i, k) {
      assert HasKey(db.instances[i], x.definition, x.child, x.dueDate, x.window);
      assert found.Some?;
      assert HasKey(db.instances[found.value], db.instances[i].definition, db.instances[i].child,
                    db.instances[i].dueDate, db.instances[i].window);
    }
  }

  /** The generic upsert is accepted exactly for a valid window, a date that is not past, a definition that exists, a
      child it is assigned to, and a key whose row has no completion event. */
  lemma UpsertIff(db: Db, x: Instance, today: Day)
    requires WellFormed(db)
    ensures Upsert(db, x, today).Row? <==>
              && x.window in {"morning", "afternoon", "evening"} && today <= x.dueDate
              && x.definition in db.definitions && (x.definition, x.child) in db.assignees && !IsTaken(db, x)
    ensures !Upsert(db, x, today).Row? ==> Upsert(db, x, today) == Refused
  {
    hide WellFormed, IsTaken, IsImmutable;
    ImmutableIff(db, x);
    WindowsAre(x.window);
  }

  /** The walk's is refused for an invalid window or a past date only; otherwise it writes exactly if the definition
      and the child are active and linked, the window is declared with this due time, and the key's row has no event. */
  lemma UpsertIfValidIff(db: Db, x: Instance, today: Day)
    requires WellFormed(db)
    ensures var valid := x.window in {"morning", "afternoon", "evening"} && today <= x.dueDate;
            && (UpsertIfValid(db, x, today) == Refused <==> !valid)
            && (UpsertIfValid(db, x, today).Row? <==> valid && RowFits(db, x) && !IsTaken(db, x))
  {
    hide WellFormed, IsTaken, IsImmutable;
    ImmutableIff(db, x);
    WindowsAre(x.window);
  }

  /** The delete takes exactly the instances of the definition, or of the child, that are due from the cutoff and from
      today on and have no completion event, and changes nothing else. */
  lemma DeleteFutureIs(db: Db, scope: Scope, cutoff: Day, today: Day)
    ensures var after := DeleteFuture(db, scope, cutoff, today);
            && after == db.(instances := after.instances)
            && (forall i :: i in after.instances <==>
                  i in db.instances && !IsGone(db, i, scope, cutoff, today))
            && forall i :: i in after.instances ==> after.instances[i] == db.instances[i]
  {}

  ghost predicate IsGone(db: Db, i: nat, scope: Scope, cutoff: Day, today: Day) {
    && i in db.instances && cutoff <= db.instances[i].dueDate && today <= db.instances[i].dueDate
    && (match scope
        case OfDefinition(d) => db.instances[i].definition == d
        case OfChild(c) => db.instances[i].child == c)
    && forall k :: 0 <= k < |db.events| ==> db.events[k].instance != i
  }

  /** An event is appended exactly for an instance that is stored and its own child, with a user and no profile or a
      profile that exists and no user, and for a completion with its timing; then the log is one event longer. */
  lemma AppendIff(db: Db, e: LogEvent)
    requires WellFormed(db)
    ensures Append(db, e).Some? <==>
              && e.instance in db.instances && db.instances[e.instance].child == e.child
              && (e.kind == Completed ==> e.wasOnTime.Some?)
              && (|| (e.source == "user" && e.userId.Some? && e.userId.value != "" && e.tapped.None?)
                  || (e.source == "panel" && e.userId.None? && e.tapped.Some? && e.tapped.value in db.children))
    ensures Append(db, e).Some? ==> Append(db, e).value == db.(events := db.events + [e])
  {
    hide EventsFit, KeysUnique, DefinitionsFit, LinksFit, WindowsFit, RulesFit, ChildrenFit;
  }

  // ----- links and windows

  ghost predicate NoRepeats<T>(xs: seq<T>) {
    forall i, j :: 0 <= i < j < |xs| ==> xs[i] != xs[j]
  }

  lemma {:induction false} InsertLinksIff(links: set<(nat, nat)>, definition: nat, children: seq<nat>)
    ensures InsertLinks(links, definition, children).Some? <==>
              NoRepeats(children) && forall i :: 0 <= i < |children| ==> (definition, children[i]) !in links
    decreases |children|
  {
    if children != [] {
      var c, rest := children[0], children[1..];
      InsertLinksIff(links + {(definition, c)}, definition, rest);
      if NoRepeats(rest) && c !in rest {
        assert children == [c] + rest;
        assert forall i :: 0 <= i < |rest| ==> rest[i] != c;
      }
      if NoRepeats(children) {
        forall i | 0 <= i < |rest| ensures rest[i] != c { assert rest[i] == children[i + 1] && c == children[0]; }
        forall i, j | 0 <= i < j < |rest| ensures rest[i] != rest[j] {
          assert rest[i] == children[i + 1] && rest[j] == children[j + 1];
        }
      }
    }
  }

  /** The declarations are accepted exactly if each names a valid window, with a due time that is one, and none names a
      window twice or one already declared. */
  ghost predicate MayDeclare(taken: set<string>, added: seq<(string, Option<string>)>) {
    && (forall i :: 0 <= i < |added| ==>
          && added[i].0 in {"morning", "afternoon", "evening"} && added[i].0 !in taken
          && (added[i].1.Some? ==> IsClock(added[i].1.value)))
    && forall i, j :: 0 <= i < j < |added| ==> added[i].0 != added[j].0
  }

  ghost function DeclaredBy(windows: map<(nat, string), Option<string>>, definition: nat): set<string> {
    set p | p in windows && p.0 == definition :: p.1
  }

  lemma {:induction false} InsertWindowsIff(
    windows: map<(nat, string), Option<string>>, definition: nat, added: seq<(string, Option<string>)>)
    ensures InsertWindows(windows, definition, added).Some? <==> MayDeclare(DeclaredBy(windows, definition), added)
    decreases |added|
  {
    hide IsTime, IsClock, QUEST_WINDOWS;
    if added != [] {
      var (w, t) := added[0];
      WindowsAre(w);
      if t.Some? { IsTimeIff(t.value); }
      var more := windows[(definition, w) := t];
      InsertWindowsIff(more, definition, added[1..]);
      DeclaresOneMore(windows, definition, w, t);
      MayDeclareFirst(DeclaredBy(windows, definition), added);
    }
  }

  lemma DeclaresOneMore(windows: map<(nat, string), Option<string>>, definition: nat, w: string, t: Option<string>)
    ensures DeclaredBy(windows[(definition, w) := t], definition) == DeclaredBy(windows, definition) + {w}
    ensures w in DeclaredBy(windows, definition) <==> (definition, w) in windows
  {
    var more := windows[(definition, w) := t];
    assert (definition, w) in more;
    forall v ensures v in DeclaredBy(more, definition) <==> v in DeclaredBy(windows, definition) || v == w {
      assert v in DeclaredBy(windows, definition) <==> (definition, v) in windows;
      assert v in DeclaredBy(more, definition) <==> (definition, v) in more;
    }
  }

  lemma MayDeclareFirst(taken: set<string>, added: seq<(string, Option<string>)>)
    requires added != []
    ensures MayDeclare(taken, added) <==>
              && added[0].0 in {"morning", "afternoon", "evening"} && added[0].0 !in taken
              && (added[0].1.Some? ==> IsClock(added[0].1.value))
              && MayDeclare(taken + {added[0].0}, added[1..])
  {
    hide IsClock;
    var rest := added[1..];
    assert forall i :: 0 <= i < |rest| ==> rest[i] == added[i + 1];
    if MayDeclare(taken + {added[0].0}, rest) {
      forall i | 0 < i < |added| ensures added[i] == rest[i - 1] {}
    }
  }

  // ----- definitions

  predicate AreActive(db: Db, children: seq<nat>) {
    forall i :: 0 <= i < |children| ==> children[i] in db.children && db.children[children[i]].isActive
  }

  /** A definition over an existing rule is created exactly for active children, none twice; it and its links are new,
      under an id no row ever had. */
  lemma CreateDefinitionIff(db: Db, title: string, rule: nat, isActive: bool, children: seq<nat>)
    requires WellFormed(db)
    ensures var made := CreateDefinition(db, title, rule, isActive, children);
            && (made.Some? <==> rule in db.rules && AreActive(db, children) && NoRepeats(children))
            && (made.Some? ==>
                  && db.nextDefinition !in db.definitions
                  && made.value == db.(
                       definitions := db.definitions[db.nextDefinition := Definition(title, rule, isActive)],
                       assignees := db.assignees + (set c | c in children :: (db.nextDefinition, c)),
                       nextDefinition := db.nextDefinition + 1))
  {
    hide EventsFit, InstancesFit, KeysUnique, WindowsFit, RulesFit, ChildrenFit, InsertLinks;
    InsertLinksIff(db.assignees, db.nextDefinition, children);
    if InsertLinks(db.assignees, db.nextDefinition, children).Some? {
      InsertLinksAre(db.assignees, db.nextDefinition, children);
    }
  }

  /** With its own rule and its windows a definition is created exactly if the rule may be stored, the children are
      active and not repeated, and the windows may be declared. */
  lemma CreateWithRuleIff(db: Db, title: string, rule: Rule, children: seq<nat>, windows: seq<(string, Option<string>)>)
    requires WellFormed(db)
    ensures CreateWithRuleAndWindows(db, title, rule, children, windows).Some? <==>
              IsRuleRow(rule) && AreActive(db, children) && NoRepeats(children) && MayDeclare({}, windows)
  {
    hide EventsFit, InstancesFit, KeysUnique, ChildrenFit, RulesFit, InsertLinks, InsertWindows, IsRuleRow, MayDeclare,
      NoRepeats;
    InsertLinksIff(db.assignees, db.nextDefinition, children);
    InsertWindowsIff(db.windows, db.nextDefinition, windows);
    assert DeclaredBy(db.windows, db.nextDefinition) == {};
  }

  /** An edit is accepted exactly if the definition exists, the children given are active and none that is not linked
      yet is given twice, the rule given may be stored, and the windows given may be declared. */
  lemma EditIff(db: Db, definition: nat, edit: Edit)
    requires WellFormed(db)
    ensures EditDefinition(db, definition, edit).Some? <==>
              && definition in db.definitions
              && (edit.children.Some? ==>
                    AreActive(db, edit.children.value) && MayLink(db.assignees, definition, edit.children.value))
              && (edit.rule.Some? ==> IsRuleRow(edit.rule.value))
              && (edit.windows.Some? ==> MayDeclare({}, edit.windows.value))
  {
    hide WellFormed, InsertWindows, ReplaceLinks, IsRuleRow, MayDeclare, MayLink;
    if edit.children.Some? { ReplaceLinksIff(db.assignees, definition, edit.children.value); }
    if edit.windows.Some? {
      InsertWindowsIff(WithoutWindows(db.windows, definition), definition, edit.windows.value);
      assert DeclaredBy(WithoutWindows(db.windows, definition), definition) == {};
    }
  }

  ghost predicate MayLink(links: set<(nat, nat)>, definition: nat, children: seq<nat>) {
    forall i, j :: 0 <= i < j < |children| && children[i] == children[j] ==> (definition, children[i]) in links
  }

  lemma ReplaceLinksIff(links: set<(nat, nat)>, definition: nat, children: seq<nat>)
    ensures ReplaceLinks(links, definition, children).Some? <==> MayLink(links, definition, children)
  {
    hide InsertLinks, Missing;
    var kept := WithoutLinks(links, definition, set c | c in children);
    InsertLinksIff(kept, definition, Missing(links, definition, children));
    MissingAre(links, definition, children);
    MissingRepeatsIff(links, definition, children);
    assert forall c :: c in Missing(links, definition, children) ==> (definition, c) !in kept;
  }

  lemma {:induction false} MissingRepeatsIff(links: set<(nat, nat)>, definition: nat, children: seq<nat>)
    ensures NoRepeats(Missing(links, definition, children)) <==> MayLink(links, definition, children)
  {
    if children != [] {
      var c, rest := children[0], children[1..];
      MissingRepeatsIff(links, definition, rest);
      MissingAre(links, definition, rest);
      NoRepeatsFirst(c, Missing(links, definition, rest));
      assert MayLink(links, definition, children) <==>
        MayLink(links, definition, rest) && ((definition, c) in links || c !in rest) by {
        MayLinkFirst(links, definition, children);
      }
    }
  }

  lemma NoRepeatsFirst<T>(x: T, xs: seq<T>)
    ensures NoRepeats([x] + xs) <==> NoRepeats(xs) && x !in xs
  {
    var all := [x] + xs;
    assert forall i :: 0 <= i < |xs| ==> all[i + 1] == xs[i];
    if NoRepeats(all) {
      forall i | 0 <= i < |xs| ensures xs[i] != x { assert all[0] != all[i + 1]; }
      forall i, j | 0 <= i < j < |xs| ensures xs[i] != xs[j] { assert all[i + 1] != all[j + 1]; }
    }
  }

  lemma MayLinkFirst(links: set<(nat, nat)>, definition: nat, children: seq<nat>)
    requires children != []
    ensures MayLink(links, definition, children) <==>
              MayLink(links, definition, children[1..]) &&
                  ((definition, children[0]) in links || children[0] !in children[1..])
  {
    var rest := children[1..];
    assert forall i :: 0 <= i < |rest| ==> rest[i] == children[i + 1];
    if MayLink(links, definition, rest) && ((definition, children[0]) in links || children[0] !in rest) {
      forall i, j | 0 <= i < j < |children| && children[i] == children[j] ensures (definition, children[i]) in links {
        assert children[j] == rest[j - 1];
        if i > 0 { assert children[i] == rest[i - 1]; }
      }
    }
  }

  /** A definition is deleted exactly if it exists and no event is of an instance of it; with it go its instances, links
      and windows, and its rule if no other definition has it, and nothing else. */
  lemma DeleteDefinitionIs(db: Db, definition: nat)
    ensures var d := DeleteIfNoHistory(db, definition);
            && (d.Absent? <==> definition !in db.definitions)
            && (d.Kept? <==> definition in db.definitions && HasLog(db, definition))
            && (d.Deleted? ==> IsDeleted(db, d.db, definition))
  {
    hide IsDeleted;
    if definition in db.definitions && !HasLog(db, definition) {
      DeletedIs(db, DeleteIfNoHistory(db, definition).db, definition);
    }
  }

  ghost predicate HasLog(db: Db, definition: nat) {
    exists k :: 0 <= k < |db.events| &&
      db.events[k].instance in db.instances && db.instances[db.events[k].instance].definition == definition
  }

  ghost predicate IsDeleted(db: Db, after: Db, definition: nat) {
    && definition in db.definitions
    && after == db.(definitions := db.definitions - {definition}, instances := after.instances,
                    assignees := after.assignees, windows := after.windows, rules := after.rules)
    && (forall i :: i in after.instances <==> i in db.instances && db.instances[i].definition != definition)
    && (forall i :: i in after.instances ==> after.instances[i] == db.instances[i])
    && (forall p :: p in after.assignees <==> p in db.assignees && p.0 != definition)
    && (forall p :: p in after.windows <==> p in db.windows && p.0 != definition)
    && (forall p :: p in after.windows ==> after.windows[p] == db.windows[p])
    && var rule := db.definitions[definition].rule;
       after.rules == if exists e :: e in db.definitions && e != definition && db.definitions[e].rule == rule
                      then db.rules else db.rules - {rule}
  }

  lemma DeletedIs(db: Db, after: Db, definition: nat)
    requires DeleteIfNoHistory(db, definition) == Deleted(after)
    ensures IsDeleted(db, after, definition)
  {
    var rule := db.definitions[definition].rule;
    var gone := db.definitions - {definition};
    forall d ensures d in gone && gone[d].rule == rule <==>
                     d in db.definitions && d != definition && db.definitions[d].rule == rule {
    }
  }

  // ----- single rows

  /** Linking a child takes an active child and a definition, declaring a window a valid one, and neither touches
      anything else; what is taken back goes, whatever it is. */
  lemma LinkingIs(db: Db, d: nat, c: nat, w: string, t: Option<string>)
    ensures AddAssignee(db, d, c) ==
            if d in db.definitions && c in db.children && db.children[c].isActive
            then Some(db.(assignees := db.assignees + {(d, c)})) else None
    ensures var accepted := d in db.definitions && w in {"morning", "afternoon", "evening"} &&
              (t.Some? ==> IsClock(t.value));
            UpsertWindow(db, d, w, t) == if accepted then Some(db.(windows := db.windows[(d, w) := t])) else None
    ensures var after := RemoveAssignee(db, d, c);
            after == db.(assignees := after.assignees) && (d, c) !in after.assignees &&
                after.assignees + {(d, c)} >= db.assignees
            && after.assignees <= db.assignees
    ensures var after := RemoveWindow(db, d, w);
            after == db.(windows := after.windows) &&
                (forall p :: p in after.windows <==> p in db.windows && p != (d, w))
            && forall p :: p in after.windows ==> after.windows[p] == db.windows[p]
  {
    hide IsTime, IsClock;
    WindowsAre(w);
    if t.Some? { IsTimeIff(t.value); }
  }

  /** Activity and a rule's columns are set on the row named, if there is one; a rule that may not be stored is
      refused. */
  lemma RowWritesAre(db: Db, id: nat, isActive: bool, rule: Rule)
    ensures var after := SetActive(db, id, isActive);
            && after == db.(definitions := after.definitions) && after.definitions.Keys == db.definitions.Keys
            && forall d :: d in db.definitions ==>
                 after.definitions[d] == if d == id then db.definitions[d].(isActive := isActive) else db.definitions[d]
    ensures var after := SetChildActive(db, id, isActive);
            && after == db.(children := after.children) && after.children.Keys == db.children.Keys
            && forall c :: c in db.children ==>
                 after.children[c] == if c == id then db.children[c].(isActive := isActive) else db.children[c]
    ensures var after := UpdateRule(db, id, rule);
            && (after.Some? <==> IsRuleRow(rule))
            && (after.Some? ==>
                  && after.value == db.(rules := after.value.rules) && after.value.rules.Keys == db.rules.Keys
                  && forall r :: r in db.rules ==> after.value.rules[r] == if r == id then rule else db.rules[r])
  {
    hide IsRuleRow;
  }

  /** A new child or rule comes under the next id, which no row had, and changes nothing else; so does a new
      instance. */
  lemma NewRowsAre(db: Db, child: Child, rule: Rule, x: Instance)
    requires WellFormed(db)
    ensures db.nextChild !in db.children && db.nextRule !in db.rules && db.nextInstance !in db.instances
    ensures CreateChild(db, child) == db.(children := db.children[db.nextChild := child], nextChild := db.nextChild + 1)
    ensures CreateRule(db, rule) ==
            if IsRuleRow(rule)
            then Some(db.(rules := db.rules[db.nextRule := rule], nextRule := db.nextRule + 1)) else None
    ensures !(exists i :: i in db.instances && HasKey(db.instances[i], x.definition, x.child, x.dueDate, x.window)) ==>
              Written(db, x) ==
              db.(instances := db.instances[db.nextInstance := x], nextInstance := db.nextInstance + 1)
  {
    hide IsRuleRow, EventsFit, KeysUnique, LinksFit, WindowsFit, DefinitionsFit;
  }

  /** A rule goes exactly if no definition has it. */
  lemma DeleteRuleIs(db: Db, rule: nat)
    ensures var after := DeleteRuleIfUnreferenced(db, rule);
            && after == db.(rules := after.rules)
            && forall r :: r in after.rules <==>
                 r in db.rules && (r != rule || exists d :: d in db.definitions && db.definitions[d].rule == rule)
    ensures forall r :: r in DeleteRuleIfUnreferenced(db, rule).rules ==>
              DeleteRuleIfUnreferenced(db, rule).rules[r] == db.rules[r]
  {}
}
