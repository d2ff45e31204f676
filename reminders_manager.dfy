/**
 * The reminders side of the app: to-dos from a scanned page become reminders due at
 * 5pm on the page's date, unless a reminder with the same normalised title already
 * exists that day. The reminder store is the calendar store; the answers the device
 * gives to each query and each creation are inputs.
 */
module RemindersManager {
  import opened Wrappers
  import opened Text
  import opened Dates
  import opened Partition
  import opened CalendarStore

  const DefaultListName: string := "General Reminders"

  // ------------------------------------------------------------ normalizeText

  /** Every white-space character is a plain space and no two of them are adjacent. */
  predicate SingleSpaced(s: string)
  {
    forall i :: 0 <= i < |s| && IsSpace(s[i]) ==> s[i] == ' ' && (i + 1 < |s| ==> !IsSpace(s[i + 1]))
  }

  /** No white space at either end. */
  predicate Trimmed(s: string)
  {
    s == [] || (!IsSpace(s[0]) && !IsSpace(s[|s| - 1]))
  }

  /** What `normalizeText` can return: lower case, trimmed, single-spaced. */
  predicate Normal(s: string)
  {
    NoUpper(s) && SingleSpaced(s) && Trimmed(s)
  }

  /** `text.toLowerCase().trim().replace(/\s+/g, ' ')`. */
  function NormalizeText(s: string): (r: string)
    ensures |r| <= |s|
  {
    CollapseWs(Trim(Lower(s)))
  }

  /** The result is lower case, has no white space at either end, and single spaces inside. */
  lemma {:induction false} NormalizeIsNormal(s: string)
    ensures Normal(NormalizeText(s))
  {
    var t := Trim(Lower(s));
    TrimNoUpper(Lower(s));
    CollapseNoUpper(t);
    CollapseSingle(t);
    TrimIsTrimmed(Lower(s));
    CollapseEnds(t);
  }

  lemma TrimIsTrimmed(s: string)
    ensures Trimmed(Trim(s))
  {
  }

  /** Collapsing keeps a trimmed string trimmed. */
  lemma CollapseEnds(t: string)
    requires Trimmed(t)
    ensures Trimmed(CollapseWs(t))
  {
    if t != [] {
      CollapseLast(t);
    }
  }

  lemma TrimNoUpper(s: string)
    requires NoUpper(s)
    ensures NoUpper(Trim(s))
  {
    var t := TrimStart(s);
    assert t == s[|s| - |t|..];
    var r := TrimEnd(t);
    assert r == t[..|r|];
  }

  lemma CollapseNoUpper(s: string)
    requires NoUpper(s)
    ensures NoUpper(CollapseWs(s))
  {
    var notUpper := c => !IsUpper(c);
    CollapseKeeps(s, notUpper);
    var r := CollapseWs(s);
    forall i | 0 <= i < |r| ensures !IsUpper(r[i]) {
      assert r[i] in r;
    }
  }

  lemma SingleSpacedCons(x: char, c: string)
    requires SingleSpaced(c)
    requires IsSpace(x) ==> x == ' ' && (c == [] || !IsSpace(c[0]))
    ensures SingleSpaced([x] + c)
  {
    var r := [x] + c;
    forall i | 0 <= i < |r| && IsSpace(r[i])
      ensures r[i] == ' ' && (i + 1 < |r| ==> !IsSpace(r[i + 1]))
    {
      if i > 0 {
        assert r[i] == c[i - 1];
        if i + 1 < |r| { assert r[i + 1] == c[i]; }
      }
    }
  }

  lemma {:induction false} CollapseSingle(s: string)
    ensures SingleSpaced(CollapseWs(s))
    decreases |s|
  {
    if s != [] {
      if IsSpace(s[0]) {
        var t := TrimStart(s[1..]);
        CollapseSingle(t);
        SingleSpacedCons(' ', CollapseWs(t));
        assert CollapseWs(s) == [' '] + CollapseWs(t);
      } else {
        CollapseSingle(s[1..]);
        SingleSpacedCons(s[0], CollapseWs(s[1..]));
        assert CollapseWs(s) == [s[0]] + CollapseWs(s[1..]);
      }
    }
  }

  lemma {:induction false} CollapseLast(s: string)
    requires s != [] && !IsSpace(s[|s| - 1])
    ensures CollapseWs(s) != [] && CollapseWs(s)[|CollapseWs(s)| - 1] == s[|s| - 1]
    decreases |s|
  {
    if IsSpace(s[0]) {
      assert |s| > 1;
      TrimStartKeepsLast(s[1..]);
      var t := TrimStart(s[1..]);
      CollapseLast(t);
      assert CollapseWs(s) == " " + CollapseWs(t);
    } else if |s| > 1 {
      CollapseLast(s[1..]);
      assert CollapseWs(s) == [s[0]] + CollapseWs(s[1..]);
    }
  }

  lemma {:induction false} TrimStartKeepsLast(s: string)
    requires s != [] && !IsSpace(s[|s| - 1])
    ensures TrimStart(s) != [] && TrimStart(s)[|TrimStart(s)| - 1] == s[|s| - 1]
    decreases |s|
  {
    if IsSpace(s[0]) {
      TrimStartKeepsLast(s[1..]);
    }
  }

  /** A single-spaced string is left alone by collapsing. */
  lemma {:induction false} CollapseSingleSpaced(s: string)
    requires SingleSpaced(s)
    ensures CollapseWs(s) == s
    decreases |s|
  {
    if s != [] {
      assert SingleSpaced(s[1..]);
      CollapseSingleSpaced(s[1..]);
      if IsSpace(s[0]) {
        TrimStartNoLeading(s[1..]);
      }
    }
  }

  /** A normal string is its own normal form. */
  lemma NormalIsFixed(s: string)
    requires Normal(s)
    ensures NormalizeText(s) == s
  {
    LowerOfNoUpper(s);
    TrimStartNoLeading(s);
    TrimEndNoTrailing(s);
    CollapseSingleSpaced(s);
  }

  /** Normalising twice is normalising once. */
  lemma NormalizeIdempotent(s: string)
    ensures NormalizeText(NormalizeText(s)) == NormalizeText(s)
  {
    NormalizeIsNormal(s);
    NormalIsFixed(NormalizeText(s));
  }

  // ------------------------------------------------------------ checkDuplicate

  datatype Todo = Todo(id: string, text: string)

  /** `reminders.some(r => normalizeText(r.title) === normalizeText(text))`. */
  function SomeTitleMatches(reminders: seq<Entry>, text: string): bool
  {
    reminders != [] && (NormalizeText(reminders[0].title) == NormalizeText(text) || SomeTitleMatches(reminders[1..], text))
  }

  lemma {:induction false} SomeTitleMatchesIff(reminders: seq<Entry>, text: string)
    ensures SomeTitleMatches(reminders, text) <==> exists e :: e in reminders && NormalizeText(e.title) == NormalizeText(text)
  {
    if reminders != [] {
      SomeTitleMatchesIff(reminders[1..], text);
      assert forall e :: e in reminders <==> e == reminders[0] || e in reminders[1..];
    }
  }

  /**
   * `checkDuplicate`: the day's reminders in the list are fetched and compared by
   * normalised title. `queryOk` is false when the fetch throws, which answers false.
   */
  predicate CheckDuplicate(store: seq<Entry>, todo: Todo, listId: string, date: int, queryOk: bool)
  {
    queryOk && SomeTitleMatches(Query(store, listId, DayFrom(date), DayTo(date)), todo.text)
  }

  /** A to-do is a duplicate exactly when the list holds a reminder that day whose title normalises the same. */
  lemma DuplicateMeansSameDayTitle(store: seq<Entry>, todo: Todo, listId: string, date: int, queryOk: bool)
    ensures CheckDuplicate(store, todo, listId, date, queryOk) <==>
              queryOk && exists e :: e in store && e.calendarId == listId && DayStart(e.start) == DayStart(date)
                                     && NormalizeText(e.title) == NormalizeText(todo.text)
  {
    SomeTitleMatchesIff(Query(store, listId, DayFrom(date), DayTo(date)), todo.text);
    DayQuery(store, listId, date);
  }

  // ------------------------------------------------------------ createReminders

  datatype Outcome = CreatedOutcome | DuplicateOutcome | ErrorOutcome

  datatype Created = Created(todo: Todo, reminderId: string)

  datatype Rejected = Rejected(todo: Todo, error: string)

  datatype Results = Results(created: seq<Created>, duplicates: seq<Todo>, errors: seq<Rejected>)

  /** The results so far, the store as the device now holds it, and each to-do's outcome. */
  datatype Run = Run(results: Results, store: seq<Entry>, outcomes: seq<Outcome>)

  /** `setHours(17, 0, 0, 0)` on the page's date. */
  function ReminderDue(date: int): int
  {
    SetHours(date, 17, 0, 0, 0)
  }

  /** A created reminder is due at exactly 5pm on the page's day. */
  lemma DueAtFive(date: int)
    ensures DayStart(ReminderDue(date)) == DayStart(date)
    ensures GetHours(ReminderDue(date)) == 17 && GetMinutes(ReminderDue(date)) == 0
    ensures ReminderDue(date) % MsPerMinute == 0
  {
    SetHoursReadBack(date, 17, 0);
    var d := DayStart(date);
    assert ReminderDue(date) == (d / MsPerMinute + 17 * 60) * MsPerMinute by {
      assert d == (date / MsPerDay) * 1440 * MsPerMinute;
    }
  }

  /** One iteration of the loop over the to-dos. */
  function Step(run: Run, todo: Todo, call: Calls, listId: string, date: int): (r: Run)
  {
    if CheckDuplicate(run.store, todo, listId, date, call.queryOk) then
      Run(run.results.(duplicates := run.results.duplicates + [todo]), run.store, run.outcomes + [DuplicateOutcome])
    else match call.create
      case NewId(id) =>
        Run(run.results.(created := run.results.created + [Created(todo, id)]),
            run.store + [Entry(id, listId, todo.text, ReminderDue(date), ReminderDue(date))],
            run.outcomes + [CreatedOutcome])
      case Throws(message) =>
        Run(run.results.(errors := run.results.errors + [Rejected(todo, message)]), run.store, run.outcomes + [ErrorOutcome])
  }

  /** The state after the first `n` to-dos. */
  function CreateUpTo(todos: seq<Todo>, calls: seq<Calls>, listId: string, date: int, store: seq<Entry>, n: nat): (r: Run)
    requires |calls| == |todos| && n <= |todos|
    ensures |r.outcomes| == n
    ensures |store| <= |r.store|
  {
    if n == 0 then Run(Results([], [], []), store, [])
    else Step(CreateUpTo(todos, calls, listId, date, store, n - 1), todos[n - 1], calls[n - 1], listId, date)
  }

  /** `createReminders`: each to-do is checked for a duplicate, then created, or recorded as an error. */
  method CreateReminders(todos: seq<Todo>, calls: seq<Calls>, listId: string, date: int, store: seq<Entry>)
    returns (results: Results, after: seq<Entry>)
    requires |calls| == |todos|
    ensures results == CreateUpTo(todos, calls, listId, date, store, |todos|).results
    ensures after == CreateUpTo(todos, calls, listId, date, store, |todos|).store
  {
    var created: seq<Created> := [];
    var duplicates: seq<Todo> := [];
    var errors: seq<Rejected> := [];
    after := store;
    ghost var outcomes: seq<Outcome> := [];
    var k := 0;
    while k < |todos|
      invariant k <= |todos|
      invariant Run(Results(created, duplicates, errors), after, outcomes) == CreateUpTo(todos, calls, listId, date, store, k)
    {
      var todo := todos[k];
      var isDuplicate := CheckDuplicate(after, todo, listId, date, calls[k].queryOk);
      if isDuplicate {
        duplicates := duplicates + [todo];
        outcomes := outcomes + [DuplicateOutcome];
      } else if calls[k].create.NewId? {
        var reminderDate := ReminderDue(date);
        var reminderId := calls[k].create.id;
        after := after + [Entry(reminderId, listId, todo.text, reminderDate, reminderDate)];
        created := created + [Created(todo, reminderId)];
        outcomes := outcomes + [CreatedOutcome];
      } else {
        errors := errors + [Rejected(todo, calls[k].create.message)];
        outcomes := outcomes + [ErrorOutcome];
      }
      assert CreateUpTo(todos, calls, listId, date, store, k + 1)
          == Step(CreateUpTo(todos, calls, listId, date, store, k), todos[k], calls[k], listId, date);
      k := k + 1;
    }
    results := Results(created, duplicates, errors);
  }

  /** The to-dos of a result list (`created` or `errors`), in list order. */
  function TodosOf<R>(rs: seq<R>, todo: R -> Todo): (r: seq<Todo>)
    ensures |r| == |rs| && forall i :: 0 <= i < |rs| ==> r[i] == todo(rs[i])
  {
    seq(|rs|, i requires 0 <= i < |rs| => todo(rs[i]))
  }

  /** Each outcome list of a run holds, in input order, exactly the to-dos `xs` with that outcome. */
  predicate ListsMatch(run: Run, xs: seq<Todo>)
    requires |xs| == |run.outcomes|
  {
    TodosOf(run.results.created, (c: Created) => c.todo) == Pick(xs, run.outcomes, CreatedOutcome)
    && run.results.duplicates == Pick(xs, run.outcomes, DuplicateOutcome)
    && TodosOf(run.results.errors, (e: Rejected) => e.todo) == Pick(xs, run.outcomes, ErrorOutcome)
    && forall i :: 0 <= i < |xs| ==> run.outcomes[i] in {CreatedOutcome, DuplicateOutcome, ErrorOutcome}
  }

  /** One step appends the to-do to the list of its outcome and to no other. */
  lemma StepKeepsLists(run: Run, xs: seq<Todo>, todo: Todo, call: Calls, listId: string, date: int, r: Run, ys: seq<Todo>)
    requires |xs| == |run.outcomes| && ListsMatch(run, xs)
    requires r == Step(run, todo, call, listId, date) && ys == xs + [todo]
    ensures |ys| == |r.outcomes| && ListsMatch(r, ys)
  {
    var o := r.outcomes[|xs|];
    assert r.outcomes == run.outcomes + [o];
    PickSnoc(xs, run.outcomes, CreatedOutcome, todo, o);
    PickSnoc(xs, run.outcomes, DuplicateOutcome, todo, o);
    PickSnoc(xs, run.outcomes, ErrorOutcome, todo, o);
    if o == CreatedOutcome {
      assert TodosOf(r.results.created, (c: Created) => c.todo) == TodosOf(run.results.created, (c: Created) => c.todo) + [todo];
    } else if o == ErrorOutcome {
      assert TodosOf(r.results.errors, (e: Rejected) => e.todo) == TodosOf(run.results.errors, (e: Rejected) => e.todo) + [todo];
    }
  }

  /** After the first `n` to-dos, each outcome list holds exactly the to-dos with that outcome. */
  lemma {:induction false} OutcomeLists(todos: seq<Todo>, calls: seq<Calls>, listId: string, date: int, store: seq<Entry>, n: nat)
    requires |calls| == |todos| && n <= |todos|
    ensures ListsMatch(CreateUpTo(todos, calls, listId, date, store, n), todos[..n])
  {
    if n > 0 {
      OutcomeLists(todos, calls, listId, date, store, n - 1);
      TakeSnoc(todos, n);
      StepKeepsLists(CreateUpTo(todos, calls, listId, date, store, n - 1), todos[..n - 1],
                     todos[n - 1], calls[n - 1], listId, date, CreateUpTo(todos, calls, listId, date, store, n), todos[..n]);
    }
  }

  /** Every to-do lands in exactly one of created, duplicates and errors; none is lost or repeated. */
  lemma CreateRemindersPartition(todos: seq<Todo>, calls: seq<Calls>, listId: string, date: int, store: seq<Entry>)
    requires |calls| == |todos|
    ensures var r := CreateUpTo(todos, calls, listId, date, store, |todos|).results;
            |r.created| + |r.duplicates| + |r.errors| == |todos|
            && multiset(TodosOf(r.created, (c: Created) => c.todo)) + multiset(r.duplicates) + multiset(TodosOf(r.errors, (e: Rejected) => e.todo)) == multiset(todos)
  {
    var run := CreateUpTo(todos, calls, listId, date, store, |todos|);
    OutcomeLists(todos, calls, listId, date, store, |todos|);
    assert todos[..|todos|] == todos;
    PickThreeWay(todos, run.outcomes, CreatedOutcome, DuplicateOutcome, ErrorOutcome);
  }

  /** Later steps only append: outcomes and store after `m` to-dos are prefixes of those after `n`. */
  lemma {:induction false} RunGrows(todos: seq<Todo>, calls: seq<Calls>, listId: string, date: int, store: seq<Entry>, m: nat, n: nat)
    requires |calls| == |todos| && m <= n <= |todos|
    ensures var a := CreateUpTo(todos, calls, listId, date, store, m);
            var b := CreateUpTo(todos, calls, listId, date, store, n);
            a.outcomes == b.outcomes[..m] && a.store <= b.store
    decreases n - m
  {
    if m < n {
      RunGrows(todos, calls, listId, date, store, m, n - 1);
      GrowsOneMore(todos, calls, listId, date, store, CreateUpTo(todos, calls, listId, date, store, m), m, n);
    }
  }

  /** A run that is a prefix of the run after `n - 1` to-dos is one of the run after `n`. */
  lemma GrowsOneMore(todos: seq<Todo>, calls: seq<Calls>, listId: string, date: int, store: seq<Entry>, a: Run, m: nat, n: nat)
    requires |calls| == |todos| && m < n <= |todos|
    requires var c := CreateUpTo(todos, calls, listId, date, store, n - 1);
             a.outcomes == c.outcomes[..m] && a.store <= c.store
    ensures var b := CreateUpTo(todos, calls, listId, date, store, n);
            a.outcomes == b.outcomes[..m] && a.store <= b.store
  {
    var c := CreateUpTo(todos, calls, listId, date, store, n - 1);
    var b := CreateUpTo(todos, calls, listId, date, store, n);
    UpToGrows(todos, calls, listId, date, store, n - 1, c, b);
    GrowsTrans(a, c, b, m);
  }

  /** The run after `k + 1` to-dos extends the run after `k` by one outcome. */
  lemma UpToGrows(todos: seq<Todo>, calls: seq<Calls>, listId: string, date: int, store: seq<Entry>, k: nat, run: Run, next: Run)
    requires |calls| == |todos| && k < |todos|
    requires run == CreateUpTo(todos, calls, listId, date, store, k)
    requires next == CreateUpTo(todos, calls, listId, date, store, k + 1)
    ensures |next.outcomes| == |run.outcomes| + 1 && next.outcomes[..|run.outcomes|] == run.outcomes && run.store <= next.store
  {
    StepGrows(run, todos[k], calls[k], listId, date, next);
  }

  /** Growing by prefixes is transitive. */
  lemma GrowsTrans(a: Run, c: Run, b: Run, m: nat)
    requires m <= |c.outcomes| < |b.outcomes|
    requires a.outcomes == c.outcomes[..m] && a.store <= c.store
    requires b.outcomes[..|c.outcomes|] == c.outcomes && c.store <= b.store
    ensures a.outcomes == b.outcomes[..m] && a.store <= b.store
  {
    assert b.outcomes[..m] == b.outcomes[..|c.outcomes|][..m];
  }

  /** One step appends one outcome and keeps the store as a prefix. */
  lemma StepGrows(run: Run, todo: Todo, call: Calls, listId: string, date: int, r: Run)
    requires r == Step(run, todo, call, listId, date)
    ensures |r.outcomes| == |run.outcomes| + 1 && r.outcomes[..|run.outcomes|] == run.outcomes && run.store <= r.store
  {
  }

  /** The outcome of to-do `i` is decided by the store as the earlier to-dos left it. */
  lemma OutcomeAt(todos: seq<Todo>, calls: seq<Calls>, listId: string, date: int, store: seq<Entry>, i: nat)
    requires |calls| == |todos| && i < |todos|
    ensures var before := CreateUpTo(todos, calls, listId, date, store, i).store;
            var o := CreateUpTo(todos, calls, listId, date, store, |todos|).outcomes[i];
            (o == DuplicateOutcome <==> CheckDuplicate(before, todos[i], listId, date, calls[i].queryOk))
            && (o == CreatedOutcome <==> !CheckDuplicate(before, todos[i], listId, date, calls[i].queryOk) && calls[i].create.NewId?)
  {
    RunGrows(todos, calls, listId, date, store, i + 1, |todos|);
    var prev := CreateUpTo(todos, calls, listId, date, store, i);
    var mid := CreateUpTo(todos, calls, listId, date, store, i + 1);
    assert mid == Step(prev, todos[i], calls[i], listId, date);
    var o := mid.outcomes[i];
    assert o == CreateUpTo(todos, calls, listId, date, store, |todos|).outcomes[i];
    if CheckDuplicate(prev.store, todos[i], listId, date, calls[i].queryOk) {
      assert o == DuplicateOutcome;
    } else if calls[i].create.NewId? {
      assert o == CreatedOutcome;
    } else {
      assert o == ErrorOutcome;
    }
  }

  /** Once a to-do is created, a later to-do with the same normalised text is a duplicate (if its query succeeds). */
  lemma RepeatIsDuplicate(todos: seq<Todo>, calls: seq<Calls>, listId: string, date: int, store: seq<Entry>, i: nat, j: nat)
    requires |calls| == |todos| && i < j < |todos|
    requires CreateUpTo(todos, calls, listId, date, store, |todos|).outcomes[i] == CreatedOutcome
    requires calls[j].queryOk && NormalizeText(todos[j].text) == NormalizeText(todos[i].text)
    ensures CreateUpTo(todos, calls, listId, date, store, |todos|).outcomes[j] == DuplicateOutcome
  {
    CreatedAt(todos, calls, listId, date, store, i);
    EntryStays(todos, calls, listId, date, store, i + 1, j,
               Entry(calls[i].create.id, listId, todos[i].text, ReminderDue(date), ReminderDue(date)));
    OutcomeAt(todos, calls, listId, date, store, j);
    var before := CreateUpTo(todos, calls, listId, date, store, j).store;
    DueAtFive(date);
    DuplicateMeansSameDayTitle(before, todos[j], listId, date, true);
  }

  /** A reminder in the store after `m` to-dos is in it after any later count. */
  lemma {:induction false} EntryStays(todos: seq<Todo>, calls: seq<Calls>, listId: string, date: int, store: seq<Entry>,
                                      m: nat, n: nat, x: Entry)
    requires |calls| == |todos| && m <= n <= |todos|
    requires x in CreateUpTo(todos, calls, listId, date, store, m).store
    ensures x in CreateUpTo(todos, calls, listId, date, store, n).store
  {
    StoreGrows(todos, calls, listId, date, store, m, n);
    PrefixKeeps(CreateUpTo(todos, calls, listId, date, store, m).store, CreateUpTo(todos, calls, listId, date, store, n).store, x);
  }

  lemma StoreGrows(todos: seq<Todo>, calls: seq<Calls>, listId: string, date: int, store: seq<Entry>, m: nat, n: nat)
    requires |calls| == |todos| && m <= n <= |todos|
    ensures CreateUpTo(todos, calls, listId, date, store, m).store <= CreateUpTo(todos, calls, listId, date, store, n).store
  {
    RunGrows(todos, calls, listId, date, store, m, n);
  }

  /** The reminder created for to-do `i` is in the store right after it. */
  lemma CreatedAt(todos: seq<Todo>, calls: seq<Calls>, listId: string, date: int, store: seq<Entry>, i: nat)
    requires |calls| == |todos| && i < |todos|
    requires CreateUpTo(todos, calls, listId, date, store, |todos|).outcomes[i] == CreatedOutcome
    ensures calls[i].create.NewId?
    ensures Entry(calls[i].create.id, listId, todos[i].text, ReminderDue(date), ReminderDue(date))
              in CreateUpTo(todos, calls, listId, date, store, i + 1).store
  {
    OutcomeAt(todos, calls, listId, date, store, i);
    var prev := CreateUpTo(todos, calls, listId, date, store, i);
    var mid := CreateUpTo(todos, calls, listId, date, store, i + 1);
    StepCreates(prev, todos[i], calls[i], listId, date, mid, mid.store);
  }

  lemma PrefixKeeps(a: seq<Entry>, b: seq<Entry>, x: Entry)
    requires a <= b && x in a
    ensures x in b
  {
    var k :| 0 <= k < |a| && a[k] == x;
    assert b[k] == x;
  }

  /** A step that creates a reminder adds it to the store, and every later store keeps it. */
  lemma StepCreates(run: Run, todo: Todo, call: Calls, listId: string, date: int, r: Run, later: seq<Entry>)
    requires r == Step(run, todo, call, listId, date)
    requires !CheckDuplicate(run.store, todo, listId, date, call.queryOk) && call.create.NewId?
    requires r.store <= later
    ensures Entry(call.create.id, listId, todo.text, ReminderDue(date), ReminderDue(date)) in later
  {
    assert r.store == run.store + [Entry(call.create.id, listId, todo.text, ReminderDue(date), ReminderDue(date))];
    assert later[|run.store|] == r.store[|run.store|];
  }

  /** The store gains exactly the created reminders, each in the chosen list, titled by its to-do and due at 5pm. */
  lemma {:induction false} StoreGainsCreated(todos: seq<Todo>, calls: seq<Calls>, listId: string, date: int, store: seq<Entry>, n: nat)
    requires |calls| == |todos| && n <= |todos|
    ensures var r := CreateUpTo(todos, calls, listId, date, store, n);
            r.store[..|store|] == store
            && |r.store| == |store| + |r.results.created|
            && forall k :: 0 <= k < |r.results.created| ==>
                 r.store[|store| + k] == Entry(r.results.created[k].reminderId, listId, r.results.created[k].todo.text,
                                               ReminderDue(date), ReminderDue(date))
  {
    if n > 0 {
      StoreGainsCreated(todos, calls, listId, date, store, n - 1);
    }
  }

  // ------------------------------------------------------------ getReminderLists

  datatype CalendarInfo = CalendarInfo(id: string, title: string, color: string)

  datatype ReminderList = ReminderList(id: string, title: string, color: string, isDefault: bool)

  /** `getReminderLists`: `None` stands for the device call throwing, which yields no lists. */
  function GetReminderLists(calendars: Option<seq<CalendarInfo>>): (r: seq<ReminderList>)
    ensures calendars.None? ==> r == []
    ensures calendars.Some? ==> |r| == |calendars.value|
    ensures calendars.Some? ==> forall i :: 0 <= i < |r| ==>
              var c := calendars.value[i];
              r[i].id == c.id && r[i].title == c.title && r[i].color == c.color
              && (r[i].isDefault <==> c.title == DefaultListName)
  {
    match calendars
    case None => []
    case Some(cals) =>
      seq(|cals|, i requires 0 <= i < |cals| =>
        ReminderList(cals[i].id, cals[i].title, cals[i].color, cals[i].title == DefaultListName))
  }
}
