/** The history screen's rows (custom_components/nestquest/core/history.py) over the chore tables. */
module History {
  import opened Options
  import opened Sorting
  import opened Tables
  import opened CompletionLog
  import IsoDates

  datatype Filter = All | Reversals | MissedOnly

  function ParseFilter(name: string): Option<Filter> {
    if name == "all" then Some(All)
    else if name == "reversals" then Some(Reversals)
    else if name == "missed" then Some(MissedOnly)
    else None
  }

  datatype HistoryRow = HistoryRow(
    occurredAt: Option<string>, eventType: string, childName: string, childId: nat, questTitle: string,
    instanceId: nat, window: string, dueDate: Day, dueTime: Option<string>, actor: string, wasOnTime: Option<bool>)

  // ----- rows

  function Str(n: nat): string {
    if n < 10 then [IsoDates.Digit(n)] else Str(n / 10) + [IsoDates.Digit(n % 10)]
  }

  function EventActor(db: Db, e: LogEvent): string {
    if e.source == "user" then (if e.userId.Some? then e.userId.value else "")
    else if e.tapped.None? then "panel (None)"
    else if e.tapped.value in db.children then "panel (" + db.children[e.tapped.value].name + ")"
    else "panel (" + Str(e.tapped.value) + ")"
  }

  predicate Joins(db: Db, i: nat) {
    i in db.instances && db.instances[i].child in db.children && db.instances[i].definition in db.definitions
  }

  function EventRow(db: Db, e: LogEvent): HistoryRow
    requires Joins(db, e.instance)
  {
    var x := db.instances[e.instance];
    HistoryRow(Some(e.occurredAt), if e.kind == Completed then "completed" else "uncompleted",
               db.children[x.child].name, e.child, db.definitions[x.definition].title,
               e.instance, x.window, x.dueDate, x.dueTime, EventActor(db, e), e.wasOnTime)
  }

  function MissedRow(db: Db, i: nat): HistoryRow
    requires Joins(db, i)
  {
    var x := db.instances[i];
    HistoryRow(None, "missed", db.children[x.child].name, x.child, db.definitions[x.definition].title,
               i, x.window, x.dueDate, x.dueTime, "nightly sweep", None)
  }

  // ----- which rows: the events, by their places in the log, or the instances, by their ids

  predicate DueWithin(db: Db, i: nat, a: Day, b: Day) {
    i in db.instances && db.instances[i].child in db.children && a <= db.instances[i].dueDate <= b
  }

  predicate IsListed(db: Db, f: Filter, a: Day, b: Day, today: Day, k: nat) {
    match f
    case MissedOnly =>
      DueWithin(db, k, a, b) && DerivedState(db.instances[k], LatestKind(db.events, k), today) == IsMissed
    case _ =>
      k < |db.events| && DueWithin(db, db.events[k].instance, a, b) &&
          (f.Reversals? ==> db.events[k].kind == Uncompleted)
  }

  function InstanceOf(db: Db, f: Filter, k: nat): nat {
    if f.MissedOnly? then k else if k < |db.events| then db.events[k].instance else 0
  }

  function Entry(db: Db, f: Filter, k: nat): Keyed<HistoryRow>
    requires Joins(db, InstanceOf(db, f, k)) && (!f.MissedOnly? ==> k < |db.events|)
  {
    var i := InstanceOf(db, f, k);
    if f.MissedOnly? then Keyed(Key(db.instances[i].dueDate, i, 0), MissedRow(db, i))
    else Keyed(Key(db.instances[i].dueDate, i, k + 1), EventRow(db, db.events[k]))
  }

  function Size(db: Db, f: Filter): nat {
    if f.MissedOnly? then db.nextInstance else |db.events|
  }

  /** The listed places below `n`, ascending. */
  function Places(db: Db, f: Filter, a: Day, b: Day, today: Day, n: nat): seq<nat> {
    if n == 0 then []
    else Places(db, f, a, b, today, n - 1) + if IsListed(db, f, a, b, today, n - 1) then [n - 1] else []
  }

  ghost predicate AllJoin(db: Db, f: Filter, ks: seq<nat>) {
    forall j :: 0 <= j < |ks| ==> Joins(db, InstanceOf(db, f, ks[j])) && (!f.MissedOnly? ==> ks[j] < |db.events|)
  }

  function Entries(db: Db, f: Filter, ks: seq<nat>): (r: seq<Keyed<HistoryRow>>)
    requires AllJoin(db, f, ks)
    ensures |r| == |ks| && forall j :: 0 <= j < |ks| ==> r[j] == Entry(db, f, ks[j])
  {
    if ks == [] then [] else Entries(db, f, ks[..|ks| - 1]) + [Entry(db, f, ks[|ks| - 1])]
  }

  lemma {:induction false} PlacesAre(db: Db, f: Filter, a: Day, b: Day, today: Day, n: nat)
    ensures forall k: nat :: k in Places(db, f, a, b, today, n) <==> k < n && IsListed(db, f, a, b, today, k)
    ensures forall i, j :: 0 <= i < j < |Places(db, f, a, b, today, n)| ==>
              Places(db, f, a, b, today, n)[i] < Places(db, f, a, b, today, n)[j]
  {
    hide IsListed;
    if n > 0 {
      PlacesAre(db, f, a, b, today, n - 1);
      var before := Places(db, f, a, b, today, n - 1);
      assert forall i :: 0 <= i < |before| ==> before[i] in before;
    }
  }

  /** Whatever is listed joins, in tables whose references hold: the assertions of the query cannot fail. */
  lemma ListedJoins(db: Db, f: Filter, a: Day, b: Day, today: Day, k: nat)
    requires WellFormed(db) && IsListed(db, f, a, b, today, k)
    ensures Joins(db, InstanceOf(db, f, k)) && k < Size(db, f)
  {
    hide EventsFit, KeysUnique, DefinitionsFit, LinksFit, WindowsFit, RulesFit, ChildrenFit, LatestKind;
  }

  lemma PlacesJoin(db: Db, f: Filter, a: Day, b: Day, today: Day)
    requires WellFormed(db)
    ensures AllJoin(db, f, Places(db, f, a, b, today, Size(db, f)))
  {
    hide WellFormed, IsListed, Joins, Places;
    var ks := Places(db, f, a, b, today, Size(db, f));
    PlacesAre(db, f, a, b, today, Size(db, f));
    forall j | 0 <= j < |ks| ensures Joins(db, InstanceOf(db, f, ks[j])) && (!f.MissedOnly? ==> ks[j] < |db.events|) {
      assert ks[j] in ks;
      ListedJoins(db, f, a, b, today, ks[j]);
    }
  }

  /** The answer, with its sort keys. */
  ghost function Answer(db: Db, f: Filter, a: Day, b: Day, today: Day): seq<Keyed<HistoryRow>>
    requires WellFormed(db)
  {
    PlacesJoin(db, f, a, b, today);
    Sort(Entries(db, f, Places(db, f, a, b, today, Size(db, f))))
  }

  lemma EntryKeysDiffer(db: Db, f: Filter, j: nat, k: nat)
    requires j != k && Joins(db, InstanceOf(db, f, j)) && Joins(db, InstanceOf(db, f, k))
    requires !f.MissedOnly? ==> j < |db.events| && k < |db.events|
    ensures Entry(db, f, j).key != Entry(db, f, k).key
  {}

  ghost predicate NoRepeats(ks: seq<nat>) {
    forall i, j :: 0 <= i < j < |ks| ==> ks[i] != ks[j]
  }

  lemma EntriesDiffer(db: Db, f: Filter, ks: seq<nat>)
    requires AllJoin(db, f, ks) && NoRepeats(ks)
    ensures DistinctKeys(Entries(db, f, ks))
  {
    hide Entry, Joins, Entries;
    forall i, j | 0 <= i < j < |ks| ensures Entries(db, f, ks)[i].key != Entries(db, f, ks)[j].key {
      EntryKeysDiffer(db, f, ks[i], ks[j]);
    }
  }

  /** A row of the answer is the entry of a listed place. */
  ghost predicate IsAnswerRow(db: Db, f: Filter, a: Day, b: Day, today: Day, p: Keyed<HistoryRow>)
    requires WellFormed(db)
  {
    exists k: nat :: IsListed(db, f, a, b, today, k) && (ListedJoins(db, f, a, b, today, k); p == Entry(db, f, k))
  }

  /** Any list of the listed places, each once, sorts to the answer. */
  lemma SortsToAnswer(db: Db, f: Filter, a: Day, b: Day, today: Day, ks: seq<nat>)
    requires WellFormed(db) && NoRepeats(ks)
    requires forall k: nat :: k in ks <==> IsListed(db, f, a, b, today, k)
    ensures AllJoin(db, f, ks) && Sort(Entries(db, f, ks)) == Answer(db, f, a, b, today)
  {
    hide WellFormed, IsListed, Joins, Entries, Entry, Places, Sort;
    forall j | 0 <= j < |ks| ensures Joins(db, InstanceOf(db, f, ks[j])) && (!f.MissedOnly? ==> ks[j] < |db.events|) {
      assert ks[j] in ks;
      ListedJoins(db, f, a, b, today, ks[j]);
    }
    var all := Places(db, f, a, b, today, Size(db, f));
    PlacesJoin(db, f, a, b, today);
    PlacesAre(db, f, a, b, today, Size(db, f));
    forall k: nat ensures k in all <==> k in ks {
      if IsListed(db, f, a, b, today, k) { ListedJoins(db, f, a, b, today, k); }
    }
    EntriesDiffer(db, f, ks);
    EntriesDiffer(db, f, all);
    SameEntries(db, f, ks, all);
    SortAscends(Entries(db, f, all));
    SortKeeps(Entries(db, f, all));
    SortIsTheAscending(Entries(db, f, ks), Sort(Entries(db, f, all)));
  }

  lemma SameEntries(db: Db, f: Filter, ks: seq<nat>, all: seq<nat>)
    requires AllJoin(db, f, ks) && AllJoin(db, f, all) && forall k: nat :: k in all <==> k in ks
    ensures Sorting.SameRows(Entries(db, f, ks), Entries(db, f, all))
    ensures Sorting.SameRows(Entries(db, f, ks), Sort(Entries(db, f, all)))
  {
    hide Entry, Joins, Entries, Sort;
    EntriesWithin(db, f, ks, all);
    EntriesWithin(db, f, all, ks);
    SortKeeps(Entries(db, f, all));
    forall p ensures p in Sort(Entries(db, f, all)) <==> p in Entries(db, f, all) {
      assert p in Sort(Entries(db, f, all)) <==> p in multiset(Sort(Entries(db, f, all)));
    }
  }

  lemma EntriesWithin(db: Db, f: Filter, ks: seq<nat>, all: seq<nat>)
    requires AllJoin(db, f, ks) && AllJoin(db, f, all) && forall k: nat :: k in ks ==> k in all
    ensures forall p :: p in Entries(db, f, ks) ==> p in Entries(db, f, all)
  {
    hide Entry, Joins, Entries;
    forall p | p in Entries(db, f, ks) ensures p in Entries(db, f, all) {
      var j :| 0 <= j < |ks| && Entries(db, f, ks)[j] == p;
      assert ks[j] in all;
      var i :| 0 <= i < |all| && all[i] == ks[j];
      assert Entries(db, f, all)[i] == p;
    }
  }

  /** The answer is ascending in due date, instance and event, and has exactly the listed rows. */
  lemma {:induction false} AnswerIs(db: Db, f: Filter, a: Day, b: Day, today: Day)
    requires WellFormed(db)
    ensures Ascends(Answer(db, f, a, b, today))
    ensures forall i, j :: 0 <= i < j < |Answer(db, f, a, b, today)| ==>
              var p, q := Answer(db, f, a, b, today)[i].key, Answer(db, f, a, b, today)[j].key;
              p.day < q.day || (p.day == q.day &&
                (p.instance < q.instance || (p.instance == q.instance && p.event < q.event)))
    ensures forall p :: p in Answer(db, f, a, b, today) <==> IsAnswerRow(db, f, a, b, today, p)
  {
    hide WellFormed, IsListed, Joins, Entries, Entry, Places, Sort;
    var all := Places(db, f, a, b, today, Size(db, f));
    PlacesJoin(db, f, a, b, today);
    PlacesAre(db, f, a, b, today, Size(db, f));
    EntriesDiffer(db, f, all);
    SortAscends(Entries(db, f, all));
    SameEntries(db, f, all, all);
    forall p ensures p in Entries(db, f, all) <==> IsAnswerRow(db, f, a, b, today, p) {
      if p in Entries(db, f, all) {
        var j :| 0 <= j < |all| && Entries(db, f, all)[j] == p;
        assert all[j] in all;
      }
      if k: nat :| IsListed(db, f, a, b, today, k) && (ListedJoins(db, f, a, b, today, k); p == Entry(db, f, k)) {
        ListedJoins(db, f, a, b, today, k);
        var j :| 0 <= j < |all| && all[j] == k;
        assert Entries(db, f, all)[j] == p;
      }
    }
  }

  // ----- laws of the answer

  /** A longer range is answered in two pieces, whatever the filter. */
  lemma {:induction false} RangeSplits(db: Db, f: Filter, a: Day, b: Day, c: Day, today: Day)
    requires WellFormed(db) && a <= b < c
    ensures Answer(db, f, a, c, today) == Answer(db, f, a, b, today) + Answer(db, f, b + 1, c, today)
  {
    hide WellFormed, Answer, IsListed, Joins, Entry, Ascends;
    var whole, first, second := Answer(db, f, a, c, today), Answer(db, f, a, b, today), Answer(db, f, b + 1, c, today);
    AnswerIs(db, f, a, c, today);
    AnswerIs(db, f, a, b, today);
    AnswerIs(db, f, b + 1, c, today);
    forall p ensures p in whole <==> p in first + second {
      RowSplits(db, f, a, b, c, today, p);
    }
    PiecesAscend(db, f, a, b, c, today);
    AscendingIsUnique(whole, first + second);
  }

  lemma ListedSplits(db: Db, f: Filter, a: Day, b: Day, c: Day, today: Day, k: nat)
    requires a <= b < c
    ensures IsListed(db, f, a, c, today, k) <==> IsListed(db, f, a, b, today, k) || IsListed(db, f, b + 1, c, today, k)
  {
    hide LatestKind;
  }

  lemma RowSplits(db: Db, f: Filter, a: Day, b: Day, c: Day, today: Day, p: Keyed<HistoryRow>)
    requires WellFormed(db) && a <= b < c
    ensures IsAnswerRow(db, f, a, c, today, p) <==>
              IsAnswerRow(db, f, a, b, today, p) || IsAnswerRow(db, f, b + 1, c, today, p)
  {
    hide WellFormed, IsListed, Joins, Entry;
    forall k: nat {
      ListedSplits(db, f, a, b, c, today, k);
    }
  }

  lemma RowIsDue(db: Db, f: Filter, a: Day, b: Day, today: Day, p: Keyed<HistoryRow>)
    requires WellFormed(db) && IsAnswerRow(db, f, a, b, today, p)
    ensures a <= p.key.day <= b
  {
    hide WellFormed, LatestKind, EventRow, MissedRow;
    var k: nat :| IsListed(db, f, a, b, today, k) && (ListedJoins(db, f, a, b, today, k); p == Entry(db, f, k));
    ListedJoins(db, f, a, b, today, k);
  }

  lemma PiecesAscend(db: Db, f: Filter, a: Day, b: Day, c: Day, today: Day)
    requires WellFormed(db) && a <= b < c
    ensures Ascends(Answer(db, f, a, b, today) + Answer(db, f, b + 1, c, today))
  {
    hide WellFormed, Answer, IsAnswerRow;
    var first, second := Answer(db, f, a, b, today), Answer(db, f, b + 1, c, today);
    AnswerIs(db, f, a, b, today);
    AnswerIs(db, f, b + 1, c, today);
    forall i | 0 <= i < |first| ensures first[i].key.day <= b {
      assert first[i] in first;
      RowIsDue(db, f, a, b, today, first[i]);
    }
    forall i | 0 <= i < |second| ensures b < second[i].key.day {
      assert second[i] in second;
      RowIsDue(db, f, b + 1, c, today, second[i]);
    }
  }

  /** The un-completed rows, in their order. */
  function OnlyReversals(rows: seq<Keyed<HistoryRow>>): seq<Keyed<HistoryRow>> {
    if rows == [] then []
    else
      OnlyReversals(rows[..|rows| - 1])
      + if rows[|rows| - 1].row.eventType == "uncompleted" then [rows[|rows| - 1]] else []
  }

  lemma {:induction false} OnlyReversalsAre(rows: seq<Keyed<HistoryRow>>)
    requires Ascends(rows)
    ensures Ascends(OnlyReversals(rows))
    ensures forall p :: p in OnlyReversals(rows) <==> p in rows && p.row.eventType == "uncompleted"
  {
    hide Before;
    if rows != [] {
      var front, last := rows[..|rows| - 1], rows[|rows| - 1];
      OnlyReversalsAre(front);
      assert rows == front + [last];
      var kept := OnlyReversals(front);
      forall i | 0 <= i < |kept| ensures Before(kept[i].key, last.key) {
        assert kept[i] in kept;
        var j :| 0 <= j < |front| && front[j] == kept[i];
        assert Before(rows[j].key, rows[|rows| - 1].key);
      }
    }
  }

  /** `reversals` is the un-completed part of `all`, in the same order. */
  lemma ReversalsAreAFilter(db: Db, a: Day, b: Day, today: Day)
    requires WellFormed(db)
    ensures Answer(db, Reversals, a, b, today) == OnlyReversals(Answer(db, All, a, b, today))
  {
    hide WellFormed, Answer, Ascends, OnlyReversals, IsAnswerRow;
    AnswerIs(db, Reversals, a, b, today);
    AnswerIs(db, All, a, b, today);
    OnlyReversalsAre(Answer(db, All, a, b, today));
    forall p ensures IsAnswerRow(db, Reversals, a, b, today, p) <==>
                     IsAnswerRow(db, All, a, b, today, p) && p.row.eventType == "uncompleted" {
      RowIsReversal(db, a, b, today, p);
    }
    AscendingIsUnique(Answer(db, Reversals, a, b, today), OnlyReversals(Answer(db, All, a, b, today)));
  }

  lemma RowIsReversal(db: Db, a: Day, b: Day, today: Day, p: Keyed<HistoryRow>)
    requires WellFormed(db)
    ensures IsAnswerRow(db, Reversals, a, b, today, p) <==>
            IsAnswerRow(db, All, a, b, today, p) && p.row.eventType == "uncompleted"
  {
    hide WellFormed, EventActor;
    forall k: nat ensures IsListed(db, Reversals, a, b, today, k) <==>
                          IsListed(db, All, a, b, today, k) && db.events[k].kind == Uncompleted {
    }
    forall k: nat | IsListed(db, All, a, b, today, k)
      ensures Joins(db, InstanceOf(db, All, k)) && Entry(db, All, k) == Entry(db, Reversals, k)
      ensures Entry(db, All, k).row.eventType == "uncompleted" <==> db.events[k].kind == Uncompleted
    {
      ListedJoins(db, All, a, b, today, k);
    }
  }

  /** A row names the child whose id it shows, and a panel event the tapped child: neither fallback of the actor
      is ever reached. */
  lemma RowsNameTheirChildren(db: Db, f: Filter, a: Day, b: Day, today: Day, k: nat)
    requires WellFormed(db) && IsListed(db, f, a, b, today, k)
    ensures Joins(db, InstanceOf(db, f, k)) && (!f.MissedOnly? ==> k < |db.events|)
    ensures var row := Entry(db, f, k).row;
            && row.childId in db.children && row.childName == db.children[row.childId].name
            && row.childId == db.instances[row.instanceId].child
            && (f.MissedOnly? ==> row.occurredAt.None? && row.wasOnTime.None? && row.actor == "nightly sweep")
            && (!f.MissedOnly? ==>
                  var e := db.events[k];
                  if e.source == "user" then Some(row.actor) == e.userId
                  else e.tapped.Some? && e.tapped.value in db.children
                       && row.actor == "panel (" + db.children[e.tapped.value].name + ")")
  {
    hide LatestKind, KeysUnique, DefinitionsFit, LinksFit, WindowsFit, RulesFit, ChildrenFit;
    ListedJoins(db, f, a, b, today, k);
    if !f.MissedOnly? {
      assert EventFits(db.events[k], db.instances, db.children);
    }
  }

  /** What a row shows of its instance and its event, and the key it is sorted by. */
  lemma RowsShow(db: Db, f: Filter, a: Day, b: Day, today: Day, k: nat)
    requires WellFormed(db) && IsListed(db, f, a, b, today, k)
    ensures Joins(db, InstanceOf(db, f, k)) && (!f.MissedOnly? ==> k < |db.events|)
    ensures var row, key := Entry(db, f, k).row, Entry(db, f, k).key;
            && row.instanceId in db.instances
            && var x := db.instances[row.instanceId];
            && x.definition in db.definitions && row.questTitle == db.definitions[x.definition].title
            && row.window == x.window && row.dueDate == x.dueDate && row.dueTime == x.dueTime
            && key.day == x.dueDate && key.instance == row.instanceId
            && if f.MissedOnly? then
                 row.instanceId == k && row.eventType == "missed" && row.occurredAt.None? && row.wasOnTime.None?
                 && row.actor == "nightly sweep" && key.event == 0
               else
                 var e := db.events[k];
                 && row.instanceId == e.instance && row.occurredAt == Some(e.occurredAt) && row.wasOnTime == e.wasOnTime
                 && row.eventType == (match e.kind case Completed => "completed" case Uncompleted => "uncompleted")
                 && key.event == k + 1
  {
    ListedJoins(db, f, a, b, today, k);
  }

  /** What is listed, in tables whose references hold: the events of the instances due in the range, for `reversals`
      those that un-complete; or the instances due in it that are past due and not done. */
  lemma ListedIff(db: Db, f: Filter, a: Day, b: Day, today: Day, k: nat)
    requires WellFormed(db)
    ensures IsListed(db, f, a, b, today, k) <==>
              if f.MissedOnly? then
                k in db.instances && a <= db.instances[k].dueDate <= b && db.instances[k].dueDate < today
                && (Kinds(db.events, k) == [] || Kinds(db.events, k)[|Kinds(db.events, k)| - 1] == Uncompleted)
              else
                k < |db.events| && db.events[k].instance in db.instances
                && a <= db.instances[db.events[k].instance].dueDate <= b
                && (f == Reversals ==> db.events[k].kind == Uncompleted)
  {
    hide LatestKind, Kinds, EventsFit, KeysUnique, DefinitionsFit, LinksFit, WindowsFit, RulesFit, ChildrenFit;
    LatestKindIs(db.events, k);
  }

  /** `missed` has a row for exactly the instances of the range whose derived state is missed: past due, and
      never completed or reversed since; none of them is done. */
  lemma MissedIsDerived(db: Db, a: Day, b: Day, today: Day, i: nat)
    requires WellFormed(db)
    ensures (exists p :: p in Answer(db, MissedOnly, a, b, today) && p.row.instanceId == i) <==>
            i in db.instances && a <= db.instances[i].dueDate <= b && db.instances[i].dueDate < today
            && (Kinds(db.events, i) == [] || Kinds(db.events, i)[|Kinds(db.events, i)| - 1] == Uncompleted)
  {
    hide Answer, LatestKind, Kinds, Ascends, EventsFit, KeysUnique, DefinitionsFit, LinksFit, WindowsFit, RulesFit,
      ChildrenFit;
    LatestKindIs(db.events, i);
    AnswerIs(db, MissedOnly, a, b, today);
    if i in db.instances && IsListed(db, MissedOnly, a, b, today, i) {
      ListedJoins(db, MissedOnly, a, b, today, i);
      assert IsAnswerRow(db, MissedOnly, a, b, today, Entry(db, MissedOnly, i));
    }
  }

  // ----- the query as it runs

  /** One child's instances or events of the range, by id, with the keys the listings order by. */
  predicate IsOfChild(db: Db, f: Filter, child: nat, a: Day, b: Day, k: nat) {
    && (!f.MissedOnly? ==> k < |db.events|)
    && InstanceOf(db, f, k) in db.instances && db.instances[InstanceOf(db, f, k)].child == child
    && a <= db.instances[InstanceOf(db, f, k)].dueDate <= b
  }

  function ListingKey(db: Db, f: Filter, k: nat): Key
    requires InstanceOf(db, f, k) in db.instances
  {
    var i := InstanceOf(db, f, k);
    if f.MissedOnly? then Key(db.instances[i].dueDate, k, 0) else Key(i, k, 0)
  }

  function Scan(db: Db, f: Filter, child: nat, a: Day, b: Day, n: nat): seq<Keyed<nat>> {
    if n == 0 then []
    else
      Scan(db, f, child, a, b, n - 1)
      + if IsOfChild(db, f, child, a, b, n - 1) then [Keyed(ListingKey(db, f, n - 1), n - 1)] else []
  }

  /** `list_by_date_range`, or `list_by_child_and_date_range` of the events. */
  function ChildListing(db: Db, f: Filter, child: nat, a: Day, b: Day): seq<nat> {
    Rows(Sort(Scan(db, f, child, a, b, Size(db, f))))
  }

  lemma {:induction false} ScanIs(db: Db, f: Filter, child: nat, a: Day, b: Day, n: nat)
    ensures forall j :: 0 <= j < |Scan(db, f, child, a, b, n)| ==>
              var p := Scan(db, f, child, a, b, n)[j];
              p.row < n && IsOfChild(db, f, child, a, b, p.row) && p.key == ListingKey(db, f, p.row)
    ensures forall i, j :: 0 <= i < j < |Scan(db, f, child, a, b, n)| ==>
              Scan(db, f, child, a, b, n)[i].row < Scan(db, f, child, a, b, n)[j].row
    ensures forall k: nat :: k < n && IsOfChild(db, f, child, a, b, k) ==>
              Keyed(ListingKey(db, f, k), k) in Scan(db, f, child, a, b, n)
  {
    hide IsOfChild, ListingKey;
    if n > 0 {
      OfChildJoins(db, f, child, a, b, n - 1);
      ScanIs(db, f, child, a, b, n - 1);
    }
  }

  lemma OfChildJoins(db: Db, f: Filter, child: nat, a: Day, b: Day, k: nat)
    ensures IsOfChild(db, f, child, a, b, k) ==> InstanceOf(db, f, k) in db.instances
  {}

  /** A sorted scan: each place of the child once, with its key. */
  ghost predicate SortedScan(db: Db, f: Filter, child: nat, a: Day, b: Day, sorted: seq<Keyed<nat>>) {
    && Ascends(sorted)
    && (forall i :: 0 <= i < |sorted| ==>
          IsOfChild(db, f, child, a, b, sorted[i].row) && InstanceOf(db, f, sorted[i].row) in db.instances
          && sorted[i].key == ListingKey(db, f, sorted[i].row))
    && (forall k: nat :: IsOfChild(db, f, child, a, b, k) ==>
          InstanceOf(db, f, k) in db.instances && Keyed(ListingKey(db, f, k), k) in sorted)
  }

  lemma ScanSorts(db: Db, f: Filter, child: nat, a: Day, b: Day)
    requires WellFormed(db)
    ensures SortedScan(db, f, child, a, b, Sort(Scan(db, f, child, a, b, Size(db, f))))
  {
    hide WellFormed, IsOfChild, ListingKey, Sort, Scan, Ascends, DistinctKeys, InstanceOf;
    var scan := Scan(db, f, child, a, b, Size(db, f));
    ScanIs(db, f, child, a, b, Size(db, f));
    forall j | 0 <= j < |scan| ensures InstanceOf(db, f, scan[j].row) in db.instances {
      OfChildJoins(db, f, child, a, b, scan[j].row);
    }
    ScanKeysDiffer(db, f, scan);
    SortAscends(scan);
    SortKeeps(scan);
    var sorted := Sort(scan);
    forall i | 0 <= i < |sorted|
      ensures IsOfChild(db, f, child, a, b, sorted[i].row) && InstanceOf(db, f, sorted[i].row) in db.instances
      ensures sorted[i].key == ListingKey(db, f, sorted[i].row)
    {
      assert sorted[i] in multiset(scan);
      var j :| 0 <= j < |scan| && scan[j] == sorted[i];
    }
    forall k: nat | IsOfChild(db, f, child, a, b, k)
      ensures InstanceOf(db, f, k) in db.instances && Keyed(ListingKey(db, f, k), k) in sorted
    {
      OfChildIsStored(db, f, child, a, b, k);
      OfChildJoins(db, f, child, a, b, k);
      assert Keyed(ListingKey(db, f, k), k) in multiset(sorted);
    }
  }

  lemma {:induction false} ChildListingIs(db: Db, f: Filter, child: nat, a: Day, b: Day)
    requires WellFormed(db)
    ensures forall k: nat :: k in ChildListing(db, f, child, a, b) <==> IsOfChild(db, f, child, a, b, k)
    ensures NoRepeats(ChildListing(db, f, child, a, b))
    ensures var ids := ChildListing(db, f, child, a, b);
            forall i, j ::
              0 <= i < j < |ids| &&
              InstanceOf(db, f, ids[i]) in db.instances && InstanceOf(db, f, ids[j]) in db.instances ==>
                Before(ListingKey(db, f, ids[i]), ListingKey(db, f, ids[j])) &&
                ListedBefore(db, f, ids[i], ids[j])
  {
    hide WellFormed, IsOfChild, ListingKey, Sort, Rows, Scan, InstanceOf, ListedBefore;
    var sorted := Sort(Scan(db, f, child, a, b, Size(db, f)));
    ScanSorts(db, f, child, a, b);
    RowsAre(sorted);
    forall k: nat | IsOfChild(db, f, child, a, b, k) ensures k in Rows(sorted) {
      var j :| 0 <= j < |sorted| && sorted[j] == Keyed(ListingKey(db, f, k), k);
      assert Rows(sorted)[j] == k;
    }
    forall i, j | 0 <= i < j < |sorted|
      ensures sorted[i].row != sorted[j].row && ListedBefore(db, f, sorted[i].row, sorted[j].row)
    {
      assert Before(sorted[i].key, sorted[j].key);
      KeysOrder(db, f, sorted[i].row, sorted[j].row);
    }
  }

  /** Instances are listed by due date and id, events by instance and place in the log. */
  predicate ListedBefore(db: Db, f: Filter, j: nat, k: nat)
    requires InstanceOf(db, f, j) in db.instances && InstanceOf(db, f, k) in db.instances
  {
    if f.MissedOnly? then
      db.instances[j].dueDate <= db.instances[k].dueDate &&
          (db.instances[j].dueDate == db.instances[k].dueDate ==> j < k)
    else
      InstanceOf(db, f, j) <= InstanceOf(db, f, k) && (InstanceOf(db, f, j) == InstanceOf(db, f, k) ==> j < k)
  }

  lemma KeysOrder(db: Db, f: Filter, j: nat, k: nat)
    requires InstanceOf(db, f, j) in db.instances && InstanceOf(db, f, k) in db.instances
    requires Before(ListingKey(db, f, j), ListingKey(db, f, k))
    ensures ListedBefore(db, f, j, k)
  {}

  lemma OfChildIsStored(db: Db, f: Filter, child: nat, a: Day, b: Day, k: nat)
    requires WellFormed(db) && IsOfChild(db, f, child, a, b, k)
    ensures k < Size(db, f)
  {
    hide EventsFit, KeysUnique, DefinitionsFit, LinksFit, WindowsFit, RulesFit, ChildrenFit;
  }

  lemma ScanKeysDiffer(db: Db, f: Filter, scan: seq<Keyed<nat>>)
    requires forall j :: 0 <= j < |scan| ==>
               InstanceOf(db, f, scan[j].row) in db.instances && scan[j].key == ListingKey(db, f, scan[j].row)
    requires forall i, j :: 0 <= i < j < |scan| ==> scan[i].row < scan[j].row
    ensures DistinctKeys(scan)
  {}

  /** An instance of the child, in the range and past due, that was never completed or was reversed last. */
  predicate IsMissedOf(db: Db, child: nat, a: Day, b: Day, today: Day, k: nat) {
    && k in db.instances && db.instances[k].child == child && a <= db.instances[k].dueDate <= b
    && db.instances[k].dueDate < today
    && (Kinds(db.events, k) == [] || Kinds(db.events, k)[|Kinds(db.events, k)| - 1] == Uncompleted)
  }

  lemma MissedOfIs(db: Db, child: nat, a: Day, b: Day, today: Day, k: nat)
    ensures IsMissedOf(db, child, a, b, today, k) <==>
              IsOfChild(db, MissedOnly, child, a, b, k)
              && DerivedState(db.instances[k], LatestKind(db.events, k), today) == IsMissed
  {
    hide LatestKind, Kinds;
    LatestKindIs(db.events, k);
  }

  /** The child's missed instances of the range, by due date and id. */
  method ListMissedForChild(db: Db, child: nat, a: Day, b: Day, today: Day) returns (missed: seq<nat>)
    requires WellFormed(db)
    ensures NoRepeats(missed)
    ensures forall k: nat :: k in missed <==>
              IsMissedOf(db, child, a, b, today, k)
    ensures forall i, j :: 0 <= i < j < |missed| && missed[i] in db.instances && missed[j] in db.instances ==>
              Before(Key(db.instances[missed[i]].dueDate, missed[i], 0),
                  Key(db.instances[missed[j]].dueDate, missed[j], 0))
  {
    hide WellFormed, ChildListing, LatestKind, Kinds;
    var instances := ChildListing(db, MissedOnly, child, a, b);
    ChildListingIs(db, MissedOnly, child, a, b);
    missed := [];
    for n := 0 to |instances|
      invariant forall k: nat :: k in missed <==>
                  k in instances[..n] && k in db.instances &&
                      DerivedState(db.instances[k], LatestKind(db.events, k), today) == IsMissed
      invariant NoRepeats(missed)
      invariant forall i, j :: 0 <= i < j < |missed| && missed[i] in db.instances && missed[j] in db.instances ==>
                  Before(Key(db.instances[missed[i]].dueDate, missed[i], 0),
                      Key(db.instances[missed[j]].dueDate, missed[j], 0))
    {
      var instance := instances[n];
      assert instance in instances;
      assert instances[..n + 1] == instances[..n] + [instance];
      if DerivedState(db.instances[instance], LatestKind(db.events, instance), today) == IsMissed {
        forall i | 0 <= i < |missed|
          ensures missed[i] in db.instances && missed[i] != instance
          ensures Before(Key(db.instances[missed[i]].dueDate, missed[i], 0),
                    Key(db.instances[instance].dueDate, instance, 0))
        {
          assert missed[i] in missed;
          var j :| 0 <= j < n && instances[j] == missed[i];
          assert Before(ListingKey(db, MissedOnly, instances[j]), ListingKey(db, MissedOnly, instances[n]));
        }
        missed := missed + [instance];
      }
    }
    assert instances[..|instances|] == instances;
    forall k: nat ensures k in missed <==> IsMissedOf(db, child, a, b, today, k) {
      MissedOfIs(db, child, a, b, today, k);
    }
  }

  /** The title of a definition, read once. */
  method Title(db: Db, titles: map<nat, string>, definition: nat) returns (cached: map<nat, string>)
    requires definition in db.definitions
    requires forall d :: d in titles ==> d in db.definitions && titles[d] == db.definitions[d].title
    ensures forall d :: d in cached ==> d in db.definitions && cached[d] == db.definitions[d].title
    ensures definition in cached
  {
    cached := titles;
    if definition !in titles {
      cached := titles[definition := db.definitions[definition].title];
    }
  }

  /** Whether a place read for a child is listed is decided by its kind or its derived state. */
  lemma ListedOfChild(db: Db, f: Filter, child: nat, a: Day, b: Day, today: Day, k: nat)
    requires WellFormed(db) && child in db.children
    ensures IsListed(db, f, a, b, today, k) && db.instances[InstanceOf(db, f, k)].child == child <==>
            && IsOfChild(db, f, child, a, b, k)
            && (f.MissedOnly? ==> DerivedState(db.instances[k], LatestKind(db.events, k), today) == IsMissed)
            && (f.Reversals? ==> db.events[k].kind == Uncompleted)
  {
    hide LatestKind, EventsFit, InstancesFit, KeysUnique, DefinitionsFit, LinksFit, WindowsFit, RulesFit, ChildrenFit;
  }

  predicate Passes(db: Db, f: Filter, k: nat) {
    f.Reversals? ==> k < |db.events| && db.events[k].kind == Uncompleted
  }

  /** The places read for a child are those of its listed rows, once the filter has passed them. */
  ghost predicate ReadsChild(db: Db, f: Filter, child: nat, a: Day, b: Day, today: Day, places: seq<nat>) {
    && NoRepeats(places)
    && (forall j :: 0 <= j < |places| ==>
          Joins(db, InstanceOf(db, f, places[j])) && (!f.MissedOnly? ==> places[j] < |db.events|))
    && (forall k: nat :: k in places && Passes(db, f, k) <==> OfChild(db, f, child, a, b, today, k))
  }

  ghost predicate OfChild(db: Db, f: Filter, child: nat, a: Day, b: Day, today: Day, k: nat) {
    IsListed(db, f, a, b, today, k) && InstanceOf(db, f, k) in db.instances &&
        db.instances[InstanceOf(db, f, k)].child == child
  }

  lemma PlacesReadChild(db: Db, f: Filter, child: nat, a: Day, b: Day, today: Day, places: seq<nat>)
    requires WellFormed(db) && child in db.children && NoRepeats(places)
    requires forall k: nat :: k in places <==>
               IsOfChild(db, f, child, a, b, k) &&
               (f.MissedOnly? ==> DerivedState(db.instances[k], LatestKind(db.events, k), today) == IsMissed)
    ensures ReadsChild(db, f, child, a, b, today, places)
  {
    hide WellFormed, IsListed, LatestKind, Joins, IsOfChild;
    forall k: nat ensures k in places && Passes(db, f, k) <==> OfChild(db, f, child, a, b, today, k) {
      ListedOfChild(db, f, child, a, b, today, k);
      OfChildJoins(db, f, child, a, b, k);
      if IsListed(db, f, a, b, today, k) { ListedJoins(db, f, a, b, today, k); }
      if IsOfChild(db, f, child, a, b, k) { OfChildIsJoined(db, f, child, a, b, k); }
    }
    forall j | 0 <= j < |places|
      ensures Joins(db, InstanceOf(db, f, places[j])) && (!f.MissedOnly? ==> places[j] < |db.events|)
    {
      assert places[j] in places;
      OfChildIsJoined(db, f, child, a, b, places[j]);
    }
  }

  lemma OfChildIsJoined(db: Db, f: Filter, child: nat, a: Day, b: Day, k: nat)
    requires WellFormed(db) && IsOfChild(db, f, child, a, b, k)
    ensures Joins(db, InstanceOf(db, f, k)) && (!f.MissedOnly? ==> k < |db.events|)
  {
    hide EventsFit, KeysUnique, DefinitionsFit, LinksFit, WindowsFit, RulesFit, ChildrenFit;
  }

  method ReadPlaces(db: Db, f: Filter, child: nat, a: Day, b: Day, today: Day) returns (places: seq<nat>)
    requires WellFormed(db) && child in db.children
    ensures ReadsChild(db, f, child, a, b, today, places)
  {
    hide WellFormed, IsListed, ChildListing, LatestKind, IsOfChild, ReadsChild, IsMissedOf;
    if f.MissedOnly? {
      places := ListMissedForChild(db, child, a, b, today);
      forall k: nat { MissedOfIs(db, child, a, b, today, k); }
    } else {
      places := ChildListing(db, f, child, a, b);
      ChildListingIs(db, f, child, a, b);
    }
    PlacesReadChild(db, f, child, a, b, today, places);
  }

  ghost predicate TitlesFit(db: Db, titles: map<nat, string>) {
    forall d :: d in titles ==> d in db.definitions && titles[d] == db.definitions[d].title
  }

  /** The pair appended for one place; the two assertions are the source's own. */
  method RowAt(db: Db, f: Filter, k: nat, titles: map<nat, string>)
    returns (entry: Keyed<HistoryRow>, cached: map<nat, string>)
    requires Joins(db, InstanceOf(db, f, k)) && (!f.MissedOnly? ==> k < |db.events|) && TitlesFit(db, titles)
    ensures entry == Entry(db, f, k) && TitlesFit(db, cached)
  {
    var i := InstanceOf(db, f, k);
    assert i in db.instances;
    var x := db.instances[i];
    assert x.definition in db.definitions;
    cached := Title(db, titles, x.definition);
    if f.MissedOnly? {
      entry := Keyed(Key(x.dueDate, i, 0), MissedRow(db, i).(questTitle := cached[x.definition]));
    } else {
      entry := Keyed(Key(x.dueDate, i, k + 1), EventRow(db, db.events[k]).(questTitle := cached[x.definition]));
    }
  }

  /** The places the filter passes, in their order. */
  function Passing(db: Db, f: Filter, places: seq<nat>): seq<nat> {
    if places == [] then []
    else
      Passing(db, f, places[..|places| - 1])
      + if Passes(db, f, places[|places| - 1]) then [places[|places| - 1]] else []
  }

  lemma {:induction false} PassingAre(db: Db, f: Filter, places: seq<nat>)
    requires NoRepeats(places) && AllJoin(db, f, places)
    ensures NoRepeats(Passing(db, f, places)) && AllJoin(db, f, Passing(db, f, places))
    ensures forall k: nat :: k in Passing(db, f, places) <==> k in places && Passes(db, f, k)
  {
    hide Joins, InstanceOf, Passes;
    if places != [] {
      var front, last := places[..|places| - 1], places[|places| - 1];
      PassingAre(db, f, front);
      assert places == front + [last];
      if Passes(db, f, last) { Grows(db, f, Passing(db, f, front), last, front); }
    }
  }

  /** One child's pass over its places. */
  method ChildRows(db: Db, f: Filter, places: seq<nat>, titles: map<nat, string>)
    returns (rows: seq<Keyed<HistoryRow>>, cached: map<nat, string>)
    requires NoRepeats(places) && AllJoin(db, f, places) && TitlesFit(db, titles)
    ensures TitlesFit(db, cached)
    ensures AllJoin(db, f, Passing(db, f, places)) && rows == Entries(db, f, Passing(db, f, places))
  {
    hide Joins, InstanceOf, Entry, TitlesFit, Entries, EventActor;
    cached := titles;
    rows := [];
    for n := 0 to |places|
      invariant TitlesFit(db, cached)
      invariant AllJoin(db, f, Passing(db, f, places[..n])) && rows == Entries(db, f, Passing(db, f, places[..n]))
    {
      var k := places[n];
      PassesNext(db, f, places, n);
      if f.Reversals? && db.events[k].kind != Uncompleted {
        continue;
      }
      var entry, more := RowAt(db, f, k, cached);
      cached := more;
      rows := rows + [entry];
    }
    assert places[..|places|] == places;
  }

  lemma PassesNext(db: Db, f: Filter, places: seq<nat>, n: nat)
    requires NoRepeats(places) && AllJoin(db, f, places) && n < |places|
    ensures AllJoin(db, f, Passing(db, f, places[..n])) && AllJoin(db, f, Passing(db, f, places[..n + 1]))
    ensures Entries(db, f, Passing(db, f, places[..n + 1])) ==
            Entries(db, f, Passing(db, f, places[..n])) +
            if Passes(db, f, places[n]) then [Entry(db, f, places[n])] else []
  {
    hide Joins, InstanceOf, Passes, Entry, Entries;
    var front := places[..n];
    assert places[..n + 1][..n] == front && places[..n + 1][n] == places[n];
    PassingAre(db, f, front);
    if Passes(db, f, places[n]) { Grows(db, f, Passing(db, f, front), places[n], front); }
    assert Entries(db, f, Passing(db, f, front)) + [] == Entries(db, f, Passing(db, f, front));
  }

  lemma Grows(db: Db, f: Filter, ks: seq<nat>, k: nat, before: seq<nat>)
    requires AllJoin(db, f, ks) && NoRepeats(ks) && k !in before
    requires Joins(db, InstanceOf(db, f, k)) && (!f.MissedOnly? ==> k < |db.events|)
    requires forall j: nat :: j in ks ==> j in before
    ensures AllJoin(db, f, ks + [k]) && NoRepeats(ks + [k])
    ensures Entries(db, f, ks + [k]) == Entries(db, f, ks) + [Entry(db, f, k)]
  {
    hide Joins, InstanceOf, Entry;
    assert forall j :: 0 <= j < |ks| ==> ks[j] in ks;
    assert (ks + [k])[..|ks|] == ks;
  }

  /** The listed places whose child's id is below `c`. */
  ghost predicate OfChildBelow(db: Db, f: Filter, a: Day, b: Day, today: Day, c: nat, k: nat) {
    IsListed(db, f, a, b, today, k) && InstanceOf(db, f, k) in db.instances &&
        db.instances[InstanceOf(db, f, k)].child < c
  }

  ghost predicate Collected(db: Db, f: Filter, a: Day, b: Day, today: Day, c: nat, ks: seq<nat>) {
    && NoRepeats(ks) && AllJoin(db, f, ks)
    && forall k: nat :: k in ks <==> OfChildBelow(db, f, a, b, today, c, k)
  }

  lemma CollectsChild(db: Db, f: Filter, a: Day, b: Day, today: Day, c: nat, ks: seq<nat>, places: seq<nat>,
      more: seq<nat>)
    requires Collected(db, f, a, b, today, c, ks) && ReadsChild(db, f, c, a, b, today, places)
    requires NoRepeats(more) && AllJoin(db, f, more) && forall k: nat :: k in more <==> k in places && Passes(db, f, k)
    ensures Collected(db, f, a, b, today, c + 1, ks + more)
  {
    hide IsListed, Joins, Passes;
    forall k: nat ensures k in ks + more <==> OfChildBelow(db, f, a, b, today, c + 1, k) {
      assert k in more <==> OfChild(db, f, c, a, b, today, k);
    }
    forall i, j | 0 <= i < |ks| && 0 <= j < |more| ensures ks[i] != more[j] {
      assert ks[i] in ks && more[j] in more;
    }
  }

  lemma NoSuchChild(db: Db, f: Filter, a: Day, b: Day, today: Day, c: nat, ks: seq<nat>)
    requires WellFormed(db) && c !in db.children && Collected(db, f, a, b, today, c, ks)
    ensures Collected(db, f, a, b, today, c + 1, ks)
  {
    hide WellFormed, IsListed;
    forall k: nat ensures k in ks <==> OfChildBelow(db, f, a, b, today, c + 1, k) {
      if IsListed(db, f, a, b, today, k) { ListedJoins(db, f, a, b, today, k); }
    }
  }

  lemma CollectedAll(db: Db, f: Filter, a: Day, b: Day, today: Day, ks: seq<nat>)
    requires WellFormed(db) && Collected(db, f, a, b, today, db.nextChild, ks)
    ensures Sort(Entries(db, f, ks)) == Answer(db, f, a, b, today)
  {
    hide IsListed, Sort, Answer, EventsFit, InstancesFit, KeysUnique, DefinitionsFit, LinksFit, WindowsFit, RulesFit;
    forall k: nat ensures k in ks <==> IsListed(db, f, a, b, today, k) {
      if IsListed(db, f, a, b, today, k) { ListedJoins(db, f, a, b, today, k); }
    }
    hide WellFormed;
    SortsToAnswer(db, f, a, b, today, ks);
  }

  lemma EntriesConcat(db: Db, f: Filter, ks: seq<nat>, more: seq<nat>)
    requires AllJoin(db, f, ks) && AllJoin(db, f, more)
    ensures AllJoin(db, f, ks + more) && Entries(db, f, ks + more) == Entries(db, f, ks) + Entries(db, f, more)
  {
    hide Joins, InstanceOf, Entry;
    assert forall j :: 0 <= j < |ks + more| ==> (ks + more)[j] == if j < |ks| then ks[j] else more[j - |ks|];
  }

  /** The rows of the answer in its order, or `None` for an unknown filter or an inverted range. */
  method QueryHistory(db: Db, filterName: string, a: Day, b: Day, today: Day) returns (r: Option<seq<HistoryRow>>)
    requires WellFormed(db)
    ensures r.None? <==> filterName !in {"all", "reversals", "missed"} || b < a
    ensures r.Some? ==>
              var f := if filterName == "all" then All else if filterName == "reversals" then Reversals else MissedOnly;
              r.value == Rows(Answer(db, f, a, b, today))
  {
    hide WellFormed, Answer, Entries, Sort, Rows, Collected, ReadsChild, AllJoin, Passes;
    var filter := ParseFilter(filterName);
    if filter.None? || b < a { return None; }
    var f := filter.value;
    var keyed: seq<Keyed<HistoryRow>>, titles: map<nat, string> := [], map[];
    ghost var ks: seq<nat> := [];
    EmptyIsCollected(db, f, a, b, today);
    for child := 0 to db.nextChild
      invariant TitlesFit(db, titles) && Collected(db, f, a, b, today, child, ks)
      invariant AllJoin(db, f, ks) && keyed == Entries(db, f, ks)
    {
      if child in db.children {
        var places := ReadPlaces(db, f, child, a, b, today);
        ReadsJoin(db, f, child, a, b, today, places);
        var rows, cached := ChildRows(db, f, places, titles);
        ghost var more := Passing(db, f, places);
        PassingAre(db, f, places);
        CollectsChild(db, f, a, b, today, child, ks, places, more);
        EntriesConcat(db, f, ks, more);
        keyed, titles, ks := keyed + rows, cached, ks + more;
      } else {
        NoSuchChild(db, f, a, b, today, child, ks);
      }
    }
    CollectedAll(db, f, a, b, today, ks);
    return Some(Rows(Sort(keyed)));
  }

  lemma EmptyIsCollected(db: Db, f: Filter, a: Day, b: Day, today: Day)
    ensures Collected(db, f, a, b, today, 0, []) && AllJoin(db, f, []) && Entries(db, f, []) == []
  {
    hide IsListed;
  }

  lemma ReadsJoin(db: Db, f: Filter, child: nat, a: Day, b: Day, today: Day, places: seq<nat>)
    requires ReadsChild(db, f, child, a, b, today, places)
    ensures NoRepeats(places) && AllJoin(db, f, places)
  {
    hide Joins, InstanceOf, OfChild;
  }
}
