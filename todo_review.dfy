/**
 * The to-do review screen: the page's to-dos grouped by day, each selected at first; the
 * user may unselect, reword or delete them, and confirming hands on the selected ones.
 */
module TodoReview {
  import opened Wrappers
  import opened Seqs

  /** A to-do as a page section lists it. */
  datatype Todo = Todo(id: string, text: string)

  /** A page section: its day name, its date, and its to-dos. */
  datatype Section = Section(day: string, date: string, todos: seq<Todo>)

  /** A to-do on the review screen, annotated with its section's date and day. */
  datatype ReviewTodo = ReviewTodo(id: string, text: string, dayDate: string, dayName: string)

  /** One day's list: a key of `editedTodos` and its to-dos. */
  datatype DayGroup = DayGroup(day: string, todos: seq<ReviewTodo>)

  // ------------------------------------------------------------ grouping on open

  /** `{...todo, dayDate: section.date, dayName: section.day}` for each to-do of the section. */
  function Annotate(sec: Section): (r: seq<ReviewTodo>)
    ensures |r| == |sec.todos|
    ensures forall k :: 0 <= k < |r| ==> r[k] == ReviewTodo(sec.todos[k].id, sec.todos[k].text, sec.date, sec.day)
  {
    seq(|sec.todos|, k requires 0 <= k < |sec.todos| => ReviewTodo(sec.todos[k].id, sec.todos[k].text, sec.date, sec.day))
  }

  /** Every annotated to-do, section by section. */
  function Flat(sections: seq<Section>): seq<ReviewTodo>
    decreases |sections|
  {
    if sections == [] then [] else Flat(sections[..|sections| - 1]) + Annotate(sections[|sections| - 1])
  }

  lemma FlatSnoc(sections: seq<Section>, i: nat)
    requires i < |sections|
    ensures Flat(sections[..i + 1]) == Flat(sections[..i]) + Annotate(sections[i])
  {
    assert sections[..i + 1][..i] == sections[..i];
  }

  /** The position of the day's list, if it has one. */
  function GroupIndex(groups: seq<DayGroup>, day: string): (r: Option<nat>)
    ensures r.Some? ==> r.value < |groups| && groups[r.value].day == day
    ensures r.None? ==> forall i :: 0 <= i < |groups| ==> groups[i].day != day
  {
    if groups == [] then None
    else if groups[0].day == day then Some(0)
    else match GroupIndex(groups[1..], day)
      case Some(k) => Some(k + 1)
      case None => None
  }

  /** `todosByDay[day].push(todo)`, creating the day's list first when it has none. */
  function AddToGroup(groups: seq<DayGroup>, t: ReviewTodo): (r: seq<DayGroup>)
  {
    match GroupIndex(groups, t.dayName)
    case Some(k) => groups[k := DayGroup(t.dayName, groups[k].todos + [t])]
    case None => groups + [DayGroup(t.dayName, [t])]
  }

  /** The day lists built from the to-dos in order. */
  function Group(xs: seq<ReviewTodo>): seq<DayGroup>
    decreases |xs|
  {
    if xs == [] then [] else AddToGroup(Group(xs[..|xs| - 1]), xs[|xs| - 1])
  }

  /** The to-dos of that day, in order. */
  function OnDay(xs: seq<ReviewTodo>, day: string): seq<ReviewTodo>
    decreases |xs|
  {
    if xs == [] then []
    else OnDay(xs[..|xs| - 1], day) + (if xs[|xs| - 1].dayName == day then [xs[|xs| - 1]] else [])
  }

  lemma GroupSnoc(xs: seq<ReviewTodo>, t: ReviewTodo)
    ensures Group(xs + [t]) == AddToGroup(Group(xs), t)
  {
    assert (xs + [t])[..|xs + [t]| - 1] == xs;
  }

  /** A day's to-dos are the to-dos of that day. */
  lemma {:induction false} OnDayMember(xs: seq<ReviewTodo>, day: string, x: ReviewTodo)
    ensures x in OnDay(xs, day) <==> x in xs && x.dayName == day
    decreases |xs|
  {
    if xs != [] {
      var n := |xs| - 1;
      OnDayMember(xs[..n], day, x);
      assert xs == xs[..n] + [xs[n]];
    }
  }

  /** Lists grouped from `xs`: one per day, each holding that day's to-dos of `xs` in order, none empty. */
  predicate GroupedAs(g: seq<DayGroup>, xs: seq<ReviewTodo>)
  {
    (forall i, j :: 0 <= i < j < |g| ==> g[i].day != g[j].day)
    && (forall i :: 0 <= i < |g| ==> g[i].todos == OnDay(xs, g[i].day) && g[i].todos != [])
    && (forall x :: x in xs ==> GroupIndex(g, x.dayName).Some?)
  }

  /** Each day's to-dos after one more to-do: the new one joins its own day only. */
  lemma OnDaySnoc(xs: seq<ReviewTodo>, t: ReviewTodo, day: string)
    ensures OnDay(xs + [t], day) == OnDay(xs, day) + (if t.dayName == day then [t] else [])
  {
    assert (xs + [t])[..|xs + [t]| - 1] == xs;
  }

  /** A to-do whose day has a list joins the end of that list. */
  lemma AddToExisting(g: seq<DayGroup>, xs: seq<ReviewTodo>, t: ReviewTodo, k: nat)
    requires GroupedAs(g, xs)
    requires GroupIndex(g, t.dayName) == Some(k)
    ensures GroupedAs(g[k := DayGroup(t.dayName, g[k].todos + [t])], xs + [t])
  {
    var ys := xs + [t];
    var r := g[k := DayGroup(t.dayName, g[k].todos + [t])];
    forall i | 0 <= i < |r|
      ensures r[i].todos == OnDay(ys, r[i].day) && r[i].todos != []
    {
      OnDaySnoc(xs, t, r[i].day);
      if i != k {
        assert r[i] == g[i] && g[i].day != t.dayName;
      }
    }
    forall x | x in ys
      ensures GroupIndex(r, x.dayName).Some?
    {
      if x != t {
        var i := GroupIndex(g, x.dayName).value;
        assert r[i].day == x.dayName;
      } else {
        assert r[k].day == x.dayName;
      }
    }
  }

  /** A to-do whose day has no list starts a new list at the end. */
  lemma AddToNew(g: seq<DayGroup>, xs: seq<ReviewTodo>, t: ReviewTodo)
    requires GroupedAs(g, xs)
    requires GroupIndex(g, t.dayName).None?
    ensures GroupedAs(g + [DayGroup(t.dayName, [t])], xs + [t])
  {
    var r := g + [DayGroup(t.dayName, [t])];
    assert forall i, j :: 0 <= i < j < |r| ==> r[i].day != r[j].day;
    NewListsHold(g, xs, t);
    NewListIndices(g, xs, t);
  }

  /** After a new day's list is added, every list holds exactly its day's to-dos. */
  lemma NewListsHold(g: seq<DayGroup>, xs: seq<ReviewTodo>, t: ReviewTodo)
    requires GroupedAs(g, xs)
    requires GroupIndex(g, t.dayName).None?
    ensures var r := g + [DayGroup(t.dayName, [t])];
            forall i :: 0 <= i < |r| ==> r[i].todos == OnDay(xs + [t], r[i].day) && r[i].todos != []
  {
    var r := g + [DayGroup(t.dayName, [t])];
    assert OnDay(xs, t.dayName) == [] by {
      if OnDay(xs, t.dayName) != [] {
        var x := OnDay(xs, t.dayName)[0];
        OnDayMember(xs, t.dayName, x);
      }
    }
    forall i | 0 <= i < |r|
      ensures r[i].todos == OnDay(xs + [t], r[i].day) && r[i].todos != []
    {
      OnDaySnoc(xs, t, r[i].day);
    }
  }

  /** After a new day's list is added, every to-do's day has a list. */
  lemma NewListIndices(g: seq<DayGroup>, xs: seq<ReviewTodo>, t: ReviewTodo)
    requires GroupedAs(g, xs)
    requires GroupIndex(g, t.dayName).None?
    ensures forall x :: x in xs + [t] ==> GroupIndex(g + [DayGroup(t.dayName, [t])], x.dayName).Some?
  {
    var r := g + [DayGroup(t.dayName, [t])];
    forall x | x in xs + [t]
      ensures GroupIndex(r, x.dayName).Some?
    {
      if x != t {
        var i := GroupIndex(g, x.dayName).value;
        assert r[i].day == x.dayName;
      } else {
        assert r[|g|].day == x.dayName;
      }
    }
  }

  lemma AddToGroupKeeps(g: seq<DayGroup>, xs: seq<ReviewTodo>, t: ReviewTodo)
    requires GroupedAs(g, xs)
    ensures GroupedAs(AddToGroup(g, t), xs + [t])
  {
    match GroupIndex(g, t.dayName) {
      case Some(k) => AddToExisting(g, xs, t, k);
      case None => AddToNew(g, xs, t);
    }
  }

  /** Grouping puts every to-do under its own day, keeps each day's order, and makes one list per day. */
  lemma {:induction false} GroupSpec(xs: seq<ReviewTodo>)
    ensures GroupedAs(Group(xs), xs)
    decreases |xs|
  {
    if xs != [] {
      GroupSpec(xs[..|xs| - 1]);
      GroupOneMore(xs);
    }
  }

  /** Grouping one more to-do keeps the grouping right. */
  lemma GroupOneMore(xs: seq<ReviewTodo>)
    requires xs != [] && GroupedAs(Group(xs[..|xs| - 1]), xs[..|xs| - 1])
    ensures GroupedAs(Group(xs), xs)
  {
    var n := |xs| - 1;
    var g := Group(xs[..n]);
    AddToGroupKeeps(g, xs[..n], xs[n]);
    GroupLast(xs, g);
    SnocLast(xs);
    GroupedAsSame(AddToGroup(g, xs[n]), xs[..n] + [xs[n]], Group(xs), xs);
  }

  lemma GroupLast(xs: seq<ReviewTodo>, g: seq<DayGroup>)
    requires xs != [] && g == Group(xs[..|xs| - 1])
    ensures AddToGroup(g, xs[|xs| - 1]) == Group(xs)
  {
  }

  lemma GroupedAsSame(g: seq<DayGroup>, xs: seq<ReviewTodo>, h: seq<DayGroup>, ys: seq<ReviewTodo>)
    requires GroupedAs(g, xs) && g == h && xs == ys
    ensures GroupedAs(h, ys)
  {
  }

  // ------------------------------------------------------------ the lists as a whole

  /** `Object.values(editedTodos).flat()`. */
  function AllTodos(days: seq<DayGroup>): seq<ReviewTodo>
    decreases |days|
  {
    if days == [] then [] else AllTodos(days[..|days| - 1]) + days[|days| - 1].todos
  }

  lemma {:induction false} AllTodosConcat(a: seq<DayGroup>, b: seq<DayGroup>)
    ensures AllTodos(a + b) == AllTodos(a) + AllTodos(b)
    decreases |b|
  {
    if b == [] {
      assert a + b == a;
    } else {
      AllTodosConcat(a, b[..|b| - 1]);
      AllTodosConcatOneMore(a, b, a + b[..|b| - 1]);
    }
  }

  /** The step of `AllTodosConcat`: the last day of `b` ends both sides. */
  lemma AllTodosConcatOneMore(a: seq<DayGroup>, b: seq<DayGroup>, init: seq<DayGroup>)
    requires b != [] && init == a + b[..|b| - 1] && AllTodos(init) == AllTodos(a) + AllTodos(b[..|b| - 1])
    ensures AllTodos(a + b) == AllTodos(a) + AllTodos(b)
  {
    var n := |b| - 1;
    ConcatInit(a, b);
    assert AllTodos(a + b) == AllTodos(init) + b[n].todos;
    assert AllTodos(b) == AllTodos(b[..n]) + b[n].todos;
    AppendAssoc(AllTodos(a), AllTodos(b[..n]), b[n].todos);
  }

  /** Replacing one day's list replaces its stretch of the whole. */
  lemma AllTodosUpdate(days: seq<DayGroup>, k: nat, g: DayGroup)
    requires k < |days|
    ensures AllTodos(days) == AllTodos(days[..k]) + days[k].todos + AllTodos(days[k + 1..])
    ensures AllTodos(days[k := g]) == AllTodos(days[..k]) + g.todos + AllTodos(days[k + 1..])
  {
    assert days == days[..k] + [days[k]] + days[k + 1..];
    assert days[k := g] == days[..k] + [g] + days[k + 1..];
    AllTodosConcat(days[..k] + [days[k]], days[k + 1..]);
    AllTodosConcat(days[..k], [days[k]]);
    AllTodosConcat(days[..k] + [g], days[k + 1..]);
    AllTodosConcat(days[..k], [g]);
    assert AllTodos([days[k]]) == days[k].todos by { assert [days[k]][..0] == []; }
    assert AllTodos([g]) == g.todos by { assert [g][..0] == []; }
  }

  /** Grouping neither loses nor repeats a to-do. */
  lemma {:induction false} GroupPermutes(xs: seq<ReviewTodo>)
    ensures multiset(AllTodos(Group(xs))) == multiset(xs)
    decreases |xs|
  {
    if xs != [] {
      var n := |xs| - 1;
      GroupPermutes(xs[..n]);
      AddToGroupPermutes(Group(xs[..n]), xs[..n], xs[n]);
      assert Group(xs) == AddToGroup(Group(xs[..n]), xs[n]);
      SnocLast(xs);
    }
  }

  /** Filing one more to-do adds exactly that to-do to the day lists. */
  lemma AddToGroupPermutes(g: seq<DayGroup>, xs: seq<ReviewTodo>, t: ReviewTodo)
    requires multiset(AllTodos(g)) == multiset(xs)
    ensures multiset(AllTodos(AddToGroup(g, t))) == multiset(xs + [t])
  {
    match GroupIndex(g, t.dayName) {
      case Some(k) =>
        AllTodosUpdate(g, k, DayGroup(t.dayName, g[k].todos + [t]));
      case None =>
        AllTodosConcat(g, [DayGroup(t.dayName, [t])]);
        assert AllTodos([DayGroup(t.dayName, [t])]) == [t] by { assert [DayGroup(t.dayName, [t])][..0] == []; }
    }
  }

  /** The ids of the to-dos, with their multiplicities. */
  function Ids(xs: seq<ReviewTodo>): (r: multiset<string>)
    ensures |r| == |xs|
    decreases |xs|
  {
    if xs == [] then multiset{} else Ids(xs[..|xs| - 1]) + multiset{xs[|xs| - 1].id}
  }

  lemma IdsSnoc(xs: seq<ReviewTodo>, x: ReviewTodo)
    ensures Ids(xs + [x]) == Ids(xs) + multiset{x.id}
  {
    assert (xs + [x])[..|xs|] == xs;
  }

  lemma {:induction false} IdsConcat(a: seq<ReviewTodo>, b: seq<ReviewTodo>)
    ensures Ids(a + b) == Ids(a) + Ids(b)
    decreases |b|
  {
    if b == [] {
      assert a + b == a;
    } else {
      var n := |b| - 1;
      IdsConcat(a, b[..n]);
      IdsConcatStep(a, b[..n], b[n]);
      SnocLast(b);
    }
  }

  lemma IdsConcatStep(a: seq<ReviewTodo>, c: seq<ReviewTodo>, x: ReviewTodo)
    requires Ids(a + c) == Ids(a) + Ids(c)
    ensures Ids(a + (c + [x])) == Ids(a) + Ids(c + [x])
  {
    IdsSnoc(a + c, x);
    IdsSnoc(c, x);
    AppendAssoc(a, c, [x]);
    assert (Ids(a) + Ids(c)) + multiset{x.id} == Ids(a) + (Ids(c) + multiset{x.id});
  }

  lemma {:induction false} IdsMember(xs: seq<ReviewTodo>, id: string)
    ensures id in Ids(xs) <==> exists x :: x in xs && x.id == id
    decreases |xs|
  {
    if xs != [] {
      var n := |xs| - 1;
      IdsMember(xs[..n], id);
      IdsMemberStep(xs[..n], xs[n], id);
      SnocLast(xs);
    }
  }

  lemma IdsMemberStep(pre: seq<ReviewTodo>, x: ReviewTodo, id: string)
    requires id in Ids(pre) <==> exists y :: y in pre && y.id == id
    ensures id in Ids(pre + [x]) <==> exists y :: y in pre + [x] && y.id == id
  {
    IdsSnoc(pre, x);
    if id == x.id {
      assert x in pre + [x];
    } else {
      forall y | y in pre + [x] && y.id == id
        ensures y in pre
      {
      }
    }
  }

  /** No id appears twice on the screen. */
  ghost predicate UniqueIds(days: seq<DayGroup>)
  {
    NoRepeats(AllTodos(days))
  }

  /** No id occurs twice in the list. */
  ghost predicate NoRepeats(xs: seq<ReviewTodo>)
  {
    forall id :: Ids(xs)[id] <= 1
  }

  /** Every selected id belongs to a to-do on the screen. */
  ghost predicate SelectionPresent(days: seq<DayGroup>, selected: set<string>)
  {
    forall id :: id in selected ==> id in Ids(AllTodos(days))
  }

  /** The ids of the to-dos as a set. */
  function IdSet(xs: seq<ReviewTodo>): set<string>
  {
    set x | x in xs :: x.id
  }

  lemma IdSetSnoc(xs: seq<ReviewTodo>, t: ReviewTodo)
    ensures IdSet(xs + [t]) == IdSet(xs) + {t.id}
  {
  }

  /** On open, the selection is exactly the ids on the screen. */
  lemma OpenSelectsAll(sections: seq<Section>)
    ensures forall id :: id in IdSet(Flat(sections)) <==> id in Ids(AllTodos(Group(Flat(sections))))
  {
    var xs := Flat(sections);
    GroupPermutes(xs);
    forall id
      ensures id in IdSet(xs) <==> id in Ids(AllTodos(Group(xs)))
    {
      IdsMember(AllTodos(Group(xs)), id);
      if id in IdSet(xs) {
        var x :| x in xs && x.id == id;
        assert x in multiset(AllTodos(Group(xs)));
      }
      if id in Ids(AllTodos(Group(xs))) {
        var x :| x in AllTodos(Group(xs)) && x.id == id;
        assert x in multiset(xs);
      }
    }
  }

  // ------------------------------------------------------------ toggling, editing, deleting

  /** The selection with `id` flipped. */
  function Toggled(selected: set<string>, id: string): (r: set<string>)
    ensures id in r <==> id !in selected
    ensures forall other :: other != id ==> (other in r <==> other in selected)
  {
    if id in selected then selected - {id} else selected + {id}
  }

  /** Toggling the same to-do twice restores the selection. */
  lemma ToggleTwice(selected: set<string>, id: string)
    ensures Toggled(Toggled(selected, id), id) == selected
  {
    var r := Toggled(Toggled(selected, id), id);
    assert forall x :: x in r <==> x in selected;
  }

  /** `todos.map(t => t.id === id ? {...t, text} : t)`. */
  function SetText(xs: seq<ReviewTodo>, id: string, text: string): (r: seq<ReviewTodo>)
    ensures |r| == |xs|
    ensures forall k :: 0 <= k < |xs| ==> r[k] == if xs[k].id == id then xs[k].(text := text) else xs[k]
  {
    seq(|xs|, k requires 0 <= k < |xs| => if xs[k].id == id then xs[k].(text := text) else xs[k])
  }

  /** `todos.filter(t => t.id !== id)`. */
  function RemoveTodo(xs: seq<ReviewTodo>, id: string): seq<ReviewTodo>
    decreases |xs|
  {
    if xs == [] then []
    else RemoveTodo(xs[..|xs| - 1], id) + (if xs[|xs| - 1].id != id then [xs[|xs| - 1]] else [])
  }

  lemma SetTextIds(xs: seq<ReviewTodo>, id: string, text: string)
    ensures Ids(SetText(xs, id, text)) == Ids(xs)
  {
    IdsPointwise(SetText(xs, id, text), xs);
  }

  /** Two lists with the same id at every position have the same ids. */
  lemma {:induction false} IdsPointwise(xs: seq<ReviewTodo>, ys: seq<ReviewTodo>)
    requires |xs| == |ys| && forall k :: 0 <= k < |xs| ==> xs[k].id == ys[k].id
    ensures Ids(xs) == Ids(ys)
    decreases |xs|
  {
    if xs != [] {
      var n := |xs| - 1;
      IdsPointwise(xs[..n], ys[..n]);
    }
  }

  lemma {:induction false} RemoveTodoIds(xs: seq<ReviewTodo>, id: string)
    ensures Ids(RemoveTodo(xs, id))[id] == 0
    ensures forall other :: other != id ==> Ids(RemoveTodo(xs, id))[other] == Ids(xs)[other]
    decreases |xs|
  {
    if xs != [] {
      var n := |xs| - 1;
      RemoveTodoIds(xs[..n], id);
      var x := xs[n];
      var tail := if x.id != id then [x] else [];
      assert RemoveTodo(xs, id) == RemoveTodo(xs[..n], id) + tail;
      IdsConcat(RemoveTodo(xs[..n], id), tail);
      assert Ids(tail) == if x.id != id then multiset{x.id} else multiset{} by {
        if x.id != id {
          assert tail[..0] == [];
        }
      }
      assert Ids(xs) == Ids(xs[..n]) + multiset{x.id};
    }
  }

  /** `updateTodoText` on the day lists: the to-do with that id in that day's list gets the new text. */
  function UpdatedText(days: seq<DayGroup>, dayName: string, id: string, text: string): (r: seq<DayGroup>)
    requires GroupIndex(days, dayName).Some?
  {
    var k := GroupIndex(days, dayName).value;
    days[k := DayGroup(dayName, SetText(days[k].todos, id, text))]
  }

  /** `deleteTodo` on the day lists: the to-dos with that id leave that day's list. */
  function Deleted(days: seq<DayGroup>, dayName: string, id: string): (r: seq<DayGroup>)
    requires GroupIndex(days, dayName).Some?
  {
    var k := GroupIndex(days, dayName).value;
    days[k := DayGroup(dayName, RemoveTodo(days[k].todos, id))]
  }

  /** Rewording changes no id, so the invariant holds on. */
  lemma UpdateKeepsIds(days: seq<DayGroup>, dayName: string, id: string, text: string)
    requires GroupIndex(days, dayName).Some?
    ensures Ids(AllTodos(UpdatedText(days, dayName, id, text))) == Ids(AllTodos(days))
  {
    var k := GroupIndex(days, dayName).value;
    var g := DayGroup(dayName, SetText(days[k].todos, id, text));
    AllTodosUpdate(days, k, g);
    SetTextIds(days[k].todos, id, text);
    IdsConcat(AllTodos(days[..k]), days[k].todos);
    IdsConcat(AllTodos(days[..k]) + days[k].todos, AllTodos(days[k + 1..]));
    IdsConcat(AllTodos(days[..k]), g.todos);
    IdsConcat(AllTodos(days[..k]) + g.todos, AllTodos(days[k + 1..]));
  }

  /** Deleting from a day list removes the id from that list's stretch and changes no other id's count. */
  lemma DeleteIds(days: seq<DayGroup>, dayName: string, id: string)
    requires GroupIndex(days, dayName).Some?
    ensures forall other :: other != id ==> Ids(AllTodos(Deleted(days, dayName, id)))[other] == Ids(AllTodos(days))[other]
    ensures Ids(AllTodos(Deleted(days, dayName, id)))[id] <= Ids(AllTodos(days))[id]
  {
    var k := GroupIndex(days, dayName).value;
    var g := DayGroup(dayName, RemoveTodo(days[k].todos, id));
    AllTodosUpdate(days, k, g);
    RemoveTodoIds(days[k].todos, id);
    IdsConcat(AllTodos(days[..k]), days[k].todos);
    IdsConcat(AllTodos(days[..k]) + days[k].todos, AllTodos(days[k + 1..]));
    IdsConcat(AllTodos(days[..k]), g.todos);
    IdsConcat(AllTodos(days[..k]) + g.todos, AllTodos(days[k + 1..]));
  }

  /** With unique ids, deleting a to-do (and unselecting it) keeps the ids unique and the selection on the screen. */
  lemma DeleteKeepsInvariant(days: seq<DayGroup>, selected: set<string>, dayName: string, id: string)
    requires GroupIndex(days, dayName).Some?
    requires UniqueIds(days) && SelectionPresent(days, selected)
    ensures UniqueIds(Deleted(days, dayName, id)) && SelectionPresent(Deleted(days, dayName, id), selected - {id})
  {
    DeleteIds(days, dayName, id);
  }

  /** Toggling a to-do on the screen keeps the selection on the screen. */
  lemma ToggleKeepsInvariant(days: seq<DayGroup>, selected: set<string>, id: string)
    requires SelectionPresent(days, selected) && id in Ids(AllTodos(days))
    ensures SelectionPresent(days, Toggled(selected, id))
  {
  }

  // ------------------------------------------------------------ confirming

  /** The to-dos whose id is selected, in order. */
  function SelectedIn(xs: seq<ReviewTodo>, selected: set<string>): seq<ReviewTodo>
    decreases |xs|
  {
    if xs == [] then []
    else SelectedIn(xs[..|xs| - 1], selected) + (if xs[|xs| - 1].id in selected then [xs[|xs| - 1]] else [])
  }

  /** The confirmed to-dos are exactly the to-dos whose id is selected. */
  lemma {:induction false} SelectedInMember(xs: seq<ReviewTodo>, selected: set<string>, x: ReviewTodo)
    ensures x in SelectedIn(xs, selected) <==> x in xs && x.id in selected
    decreases |xs|
  {
    if xs != [] {
      var n := |xs| - 1;
      SelectedInMember(xs[..n], selected, x);
      assert xs == xs[..n] + [xs[n]];
    }
  }

  /** As many to-dos are selected as there are selected ids among them, when no id repeats. */
  lemma {:induction false} SelectedInCount(xs: seq<ReviewTodo>, selected: set<string>)
    requires NoRepeats(xs)
    ensures |SelectedIn(xs, selected)| == |selected * IdSet(xs)|
    decreases |xs|
  {
    if xs != [] {
      UniqueIdsInit(xs);
      SelectedInCount(xs[..|xs| - 1], selected);
      SelectedInOneMore(xs, selected);
    }
  }

  /** Without repeats, the front of the list has none either and does not hold the last id. */
  lemma UniqueIdsInit(xs: seq<ReviewTodo>)
    requires xs != [] && NoRepeats(xs)
    ensures NoRepeats(xs[..|xs| - 1])
    ensures xs[|xs| - 1].id !in IdSet(xs[..|xs| - 1])
  {
    var n := |xs| - 1;
    var x := xs[n];
    assert forall id :: Ids(xs[..n])[id] <= Ids(xs)[id];
    assert Ids(xs)[x.id] == Ids(xs[..n])[x.id] + 1;
    IdsMember(xs[..n], x.id);
  }

  /** The step of `SelectedInCount`: a new id counts once exactly when it is selected. */
  lemma SelectedInOneMore(xs: seq<ReviewTodo>, selected: set<string>)
    requires xs != [] && xs[|xs| - 1].id !in IdSet(xs[..|xs| - 1])
    requires |SelectedIn(xs[..|xs| - 1], selected)| == |selected * IdSet(xs[..|xs| - 1])|
    ensures |SelectedIn(xs, selected)| == |selected * IdSet(xs)|
  {
    var n := |xs| - 1;
    IdSetInit(xs);
    SelectedIdsSnoc(selected, IdSet(xs[..n]), xs[n].id);
  }

  lemma IdSetInit(xs: seq<ReviewTodo>)
    requires xs != []
    ensures IdSet(xs) == IdSet(xs[..|xs| - 1]) + {xs[|xs| - 1].id}
  {
    IdSetSnoc(xs[..|xs| - 1], xs[|xs| - 1]);
    SnocLast(xs);
  }

  /** A new id adds one to the selected ids exactly when it is selected. */
  lemma SelectedIdsSnoc(selected: set<string>, ids: set<string>, id: string)
    requires id !in ids
    ensures |selected * (ids + {id})| == |selected * ids| + (if id in selected then 1 else 0)
  {
    if id in selected {
      assert selected * (ids + {id}) == selected * ids + {id};
    } else {
      assert selected * (ids + {id}) == selected * ids;
    }
  }

  /** Without repeated ids there are as many distinct ids as to-dos. */
  lemma {:induction false} DistinctIdsCount(xs: seq<ReviewTodo>)
    ensures NoRepeats(xs) ==> |IdSet(xs)| == |xs|
    decreases |xs|
  {
    if xs != [] && NoRepeats(xs) {
      UniqueIdsInit(xs);
      DistinctIdsCount(xs[..|xs| - 1]);
      IdSetInit(xs);
    }
  }

  /** With unique ids and the selection on the screen, confirming hands on exactly as many to-dos as are selected. */
  lemma ConfirmCount(days: seq<DayGroup>, selected: set<string>)
    ensures UniqueIds(days) && SelectionPresent(days, selected) ==> |SelectedIn(AllTodos(days), selected)| == |selected|
  {
    if !(UniqueIds(days) && SelectionPresent(days, selected)) {
      return;
    }
    SelectedInCount(AllTodos(days), selected);
    forall id | id in selected
      ensures id in IdSet(AllTodos(days))
    {
      IdsMember(AllTodos(days), id);
    }
    assert selected * IdSet(AllTodos(days)) == selected;
  }

  // ------------------------------------------------------------ the screen

  /** The inner loop of the opening effect: one section's to-dos join their day's list and the selection. */
  method AddSection(groups: seq<DayGroup>, ids: set<string>, ghost done: seq<ReviewTodo>, section: Section)
    returns (groups': seq<DayGroup>, ids': set<string>)
    requires groups == Group(done) && ids == IdSet(done)
    ensures groups' == Group(done + Annotate(section)) && ids' == IdSet(done + Annotate(section))
  {
    groups', ids' := groups, ids;
    ghost var annotated := Annotate(section);
    var j := 0;
    assert done + annotated[..0] == done;
    while j < |section.todos|
      invariant j <= |section.todos|
      invariant groups' == Group(done + annotated[..j])
      invariant ids' == IdSet(done + annotated[..j])
    {
      var todo := section.todos[j];
      var entry := ReviewTodo(todo.id, todo.text, section.date, section.day);
      AddStep(done + annotated[..j], entry, groups', ids');
      ids' := ids' + {todo.id};
      groups' := AddToGroup(groups', entry);
      PrefixSnoc(done, annotated, j);
      j := j + 1;
    }
    TakeAll(annotated);
  }

  /** One more to-do: its day's list grows as grouping says, and its id joins the selection. */
  lemma AddStep(ys: seq<ReviewTodo>, t: ReviewTodo, groups: seq<DayGroup>, ids: set<string>)
    requires groups == Group(ys) && ids == IdSet(ys)
    ensures AddToGroup(groups, t) == Group(ys + [t]) && ids + {t.id} == IdSet(ys + [t])
  {
    GroupSnoc(ys, t);
    IdSetSnoc(ys, t);
  }

  class Review {
    /** `editedTodos`, key by key in insertion order. */
    var days: seq<DayGroup>
    /** `selectedTodos`. */
    var selected: set<string>

    constructor()
      ensures days == [] && selected == {}
    {
      days := [];
      selected := {};
    }

    /**
     * The effect run when the screen is shown with to-dos: every to-do is annotated with
     * its section's date and day, put in its day's list, and selected.
     */
    method Open(visible: bool, todos: Option<seq<Section>>)
      modifies this
      ensures visible && todos.Some? ==> days == Group(Flat(todos.value)) && selected == IdSet(Flat(todos.value))
      ensures !(visible && todos.Some?) ==> days == old(days) && selected == old(selected)
    {
      if !visible || todos.None? {
        return;
      }
      var sections := todos.value;
      var allIds: set<string> := {};
      var todosByDay: seq<DayGroup> := [];
      var i := 0;
      while i < |sections|
        invariant i <= |sections|
        invariant todosByDay == Group(Flat(sections[..i])) && allIds == IdSet(Flat(sections[..i]))
      {
        todosByDay, allIds := AddSection(todosByDay, allIds, Flat(sections[..i]), sections[i]);
        FlatSnoc(sections, i);
        i := i + 1;
      }
      assert sections[..i] == sections;
      selected := allIds;
      days := todosByDay;
    }

    /** `toggleTodoSelection`. */
    method ToggleTodoSelection(todoId: string)
      modifies this
      ensures selected == Toggled(old(selected), todoId) && days == old(days)
    {
      if todoId in selected {
        selected := selected - {todoId};
      } else {
        selected := selected + {todoId};
      }
    }

    /** `updateTodoText`; the day must have a list (`prev[dayName].map` throws otherwise). */
    method UpdateTodoText(dayName: string, todoId: string, newText: string)
      requires GroupIndex(days, dayName).Some?
      modifies this
      ensures days == UpdatedText(old(days), dayName, todoId, newText) && selected == old(selected)
    {
      var k := GroupIndex(days, dayName).value;
      days := days[k := DayGroup(dayName, SetText(days[k].todos, todoId, newText))];
    }

    /** `deleteTodo`; the day must have a list (`prev[dayName].filter` throws otherwise). */
    method DeleteTodo(dayName: string, todoId: string)
      requires GroupIndex(days, dayName).Some?
      modifies this
      ensures days == Deleted(old(days), dayName, todoId) && selected == old(selected) - {todoId}
    {
      var k := GroupIndex(days, dayName).value;
      days := days[k := DayGroup(dayName, RemoveTodo(days[k].todos, todoId))];
      selected := selected - {todoId};
    }

    /** `handleConfirm`: the selected to-dos, day list by day list; `None` (an alert) when there are none. */
    method HandleConfirm() returns (r: Option<seq<ReviewTodo>>)
      ensures SelectedIn(AllTodos(days), selected) == [] ==> r.None?
      ensures SelectedIn(AllTodos(days), selected) != [] ==> r == Some(SelectedIn(AllTodos(days), selected))
    {
      var selectedTodosList: seq<ReviewTodo> := [];
      var i := 0;
      while i < |days|
        invariant i <= |days|
        invariant selectedTodosList == SelectedIn(AllTodos(days[..i]), selected)
      {
        var dayTodos := days[i].todos;
        ghost var done := AllTodos(days[..i]);
        var j := 0;
        assert done + dayTodos[..0] == done;
        while j < |dayTodos|
          invariant j <= |dayTodos|
          invariant selectedTodosList == SelectedIn(done + dayTodos[..j], selected)
        {
          var todo := dayTodos[j];
          if todo.id in selected {
            selectedTodosList := selectedTodosList + [todo];
          }
          ghost var ys := done + dayTodos[..j + 1];
          assert ys[..|ys| - 1] == done + dayTodos[..j];
          j := j + 1;
        }
        assert days[..i + 1][..i] == days[..i];
        assert dayTodos[..j] == dayTodos;
        i := i + 1;
      }
      assert days[..i] == days;
      if |selectedTodosList| == 0 {
        r := None;
      } else {
        r := Some(selectedTodosList);
      }
    }

    /** `getTotalCount`: every to-do on the screen; with unique ids, the number of distinct ids. */
    function TotalCount(): (n: nat)
      reads this
      ensures UniqueIds(days) ==> n == |IdSet(AllTodos(days))|
    {
      DistinctIdsCount(AllTodos(days));
      |AllTodos(days)|
    }

    /** `getSelectedCount`: with the invariant, exactly the number of to-dos a confirmation hands on. */
    function SelectedCount(): (n: nat)
      reads this
      ensures UniqueIds(days) && SelectionPresent(days, selected) ==> n == |SelectedIn(AllTodos(days), selected)|
    {
      ConfirmCount(days, selected);
      |selected|
    }
  }
}
