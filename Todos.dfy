/**
 * The task list of the component: the record type, the list-to-list updaters handed to
 * `setTodos`, the `filteredTodos` projection and the derived counts.
 */
module Todos {
  import opened Text

  /**
   * One task. `id` and `createdAt` are millisecond timestamps taken when the task is added
   * (`Date.now()` and the instant behind `new Date().toISOString()`); `deleting` is the
   * transient flag set by the first phase of a delete.
   */
  datatype Todo = Todo(id: nat, text: string, completed: bool, important: bool,
                       createdAt: nat, deleting: bool)

  // ---------------------------------------------------------------------------------------
  // Sequence helpers: `Array.prototype.filter` and order-preserving sublists.
  // ---------------------------------------------------------------------------------------

  /** `s.filter(p)`: the elements satisfying `p`, in their original order. */
  function Filter(s: seq<Todo>, p: Todo -> bool): (r: seq<Todo>)
    ensures |r| <= |s|
    ensures forall x :: x in r <==> x in s && p(x)
    ensures forall x :: multiset(r)[x] == if p(x) then multiset(s)[x] else 0
    ensures IsSubsequence(r, s)
  {
    if s == [] then []
    else
      var rest := Filter(s[1..], p);
      assert s == [s[0]] + s[1..];
      if p(s[0]) then
        assert ([s[0]] + rest)[1..] == rest;
        [s[0]] + rest
      else rest
  }

  /** `a` is `b` with some elements dropped: the survivors keep their relative order. */
  predicate IsSubsequence(a: seq<Todo>, b: seq<Todo>)
    decreases |b|
  {
    a == [] || (b != [] && ((a[0] == b[0] && IsSubsequence(a[1..], b[1..])) || IsSubsequence(a, b[1..])))
  }

  /** Dropping nothing is a subsequence too. */
  lemma {:induction false} SubsequenceReflexive(s: seq<Todo>)
    ensures IsSubsequence(s, s)
    decreases |s|
  {
    if s != [] {
      SubsequenceReflexive(s[1..]);
    }
  }

  /** Every element of a subsequence is an element of the whole. */
  lemma {:induction false} SubsequenceMembers(a: seq<Todo>, b: seq<Todo>)
    requires IsSubsequence(a, b)
    ensures forall x :: x in a ==> x in b
    decreases |b|
  {
    if a != [] {
      if a[0] == b[0] && IsSubsequence(a[1..], b[1..]) {
        SubsequenceMembers(a[1..], b[1..]);
        assert a == [a[0]] + a[1..];
      } else {
        SubsequenceMembers(a, b[1..]);
      }
    }
  }

  /** A sublist of a sublist is a sublist. */
  lemma {:induction false} SubsequenceTransitive(a: seq<Todo>, b: seq<Todo>, c: seq<Todo>)
    requires IsSubsequence(a, b) && IsSubsequence(b, c)
    ensures IsSubsequence(a, c)
    decreases |c|
  {
    if a != [] {
      if b[0] == c[0] && IsSubsequence(b[1..], c[1..]) {
        if a[0] == b[0] && IsSubsequence(a[1..], b[1..]) {
          SubsequenceTransitive(a[1..], b[1..], c[1..]);
        } else {
          SubsequenceTransitive(a, b[1..], c[1..]);
        }
      } else {
        SubsequenceTransitive(a, b, c[1..]);
      }
    }
  }

  /** Filtering with the same predicate keeps equal numbers of every element from equal multisets. */
  lemma FilterRespectsMultiset(a: seq<Todo>, b: seq<Todo>, p: Todo -> bool)
    requires multiset(a) == multiset(b)
    ensures multiset(Filter(a, p)) == multiset(Filter(b, p))
    ensures |Filter(a, p)| == |Filter(b, p)|
  {
    var fa, fb := Filter(a, p), Filter(b, p);
    assert forall x :: multiset(fa)[x] == multiset(fb)[x];
    assert multiset(fa) == multiset(fb);
    assert |fa| == |multiset(fa)| == |multiset(fb)| == |fb|;
  }

  // ---------------------------------------------------------------------------------------
  // addTodo (src/authapp.js:225-235)
  // ---------------------------------------------------------------------------------------

  /** The record `addTodo` creates for the trimmed text `text`. */
  function NewTodo(text: string, id: nat, now: nat): Todo {
    Todo(id, text, false, false, now, false)
  }

  /**
   * `addTodo`: input that trims to nothing is refused and the list is left alone; otherwise one
   * fresh, incomplete, unimportant record carrying the trimmed text goes in front of the list.
   */
  function AddTodo(todos: seq<Todo>, input: string, id: nat, now: nat): (r: seq<Todo>)
    ensures IsBlank(input) ==> r == todos
    ensures !IsBlank(input) ==>
              |r| == |todos| + 1 && r[1..] == todos
              && r[0].id == id && r[0].createdAt == now
              && !r[0].completed && !r[0].important && !r[0].deleting
              && r[0].text == Trim(input) && r[0].text != []
              && !IsSpace(r[0].text[0]) && !IsSpace(r[0].text[|r[0].text| - 1])
  {
    var text := Trim(input);
    if text == [] then todos else [NewTodo(text, id, now)] + todos
  }

  // ---------------------------------------------------------------------------------------
  // toggleTodoComplete / toggleTodoImportant / deleteTodo phase 1 (src/authapp.js:237-269)
  // ---------------------------------------------------------------------------------------

  /** `todos.map(t => t.id === id ? f(t) : t)`. */
  function UpdateWhere(todos: seq<Todo>, id: nat, f: Todo -> Todo): (r: seq<Todo>)
    ensures |r| == |todos|
    ensures forall i :: 0 <= i < |todos| ==> r[i] == if todos[i].id == id then f(todos[i]) else todos[i]
  {
    if todos == [] then []
    else [if todos[0].id == id then f(todos[0]) else todos[0]] + UpdateWhere(todos[1..], id, f)
  }

  function FlipCompleted(t: Todo): Todo { t.(completed := !t.completed) }
  function FlipImportant(t: Todo): Todo { t.(important := !t.important) }
  function MarkDeleting(t: Todo): Todo { t.(deleting := true) }

  /** `toggleTodoComplete(id)`: flips `completed` on the records with this id and nothing else. */
  function ToggleComplete(todos: seq<Todo>, id: nat): (r: seq<Todo>)
    ensures |r| == |todos|
    ensures forall i :: 0 <= i < |todos| ==>
              r[i].completed == (todos[i].completed != (todos[i].id == id))
              && r[i].(completed := todos[i].completed) == todos[i]
  {
    UpdateWhere(todos, id, FlipCompleted)
  }

  /** `toggleTodoImportant(id)`: flips `important` on the records with this id and nothing else. */
  function ToggleImportant(todos: seq<Todo>, id: nat): (r: seq<Todo>)
    ensures |r| == |todos|
    ensures forall i :: 0 <= i < |todos| ==>
              r[i].important == (todos[i].important != (todos[i].id == id))
              && r[i].(important := todos[i].important) == todos[i]
  {
    UpdateWhere(todos, id, FlipImportant)
  }

  /** Toggling completion twice with the same id gives back the original list. */
  lemma {:induction false} ToggleCompleteTwice(todos: seq<Todo>, id: nat)
    ensures ToggleComplete(ToggleComplete(todos, id), id) == todos
  {
    var once := ToggleComplete(todos, id);
    var twice := ToggleComplete(once, id);
    forall i | 0 <= i < |todos| ensures twice[i] == todos[i] {
      assert once[i].id == todos[i].id;
    }
  }

  /** Toggling importance twice with the same id gives back the original list. */
  lemma {:induction false} ToggleImportantTwice(todos: seq<Todo>, id: nat)
    ensures ToggleImportant(ToggleImportant(todos, id), id) == todos
  {
    var once := ToggleImportant(todos, id);
    var twice := ToggleImportant(once, id);
    forall i | 0 <= i < |todos| ensures twice[i] == todos[i] {
      assert once[i].id == todos[i].id;
    }
  }

  /**
   * Phase 1 of `deleteTodo(id)`: the records with this id are flagged `deleting`; length,
   * order, the other records and every other field stay as they were.
   */
  function MarkForDeletion(todos: seq<Todo>, id: nat): (r: seq<Todo>)
    ensures |r| == |todos|
    ensures forall i :: 0 <= i < |todos| ==>
              r[i].deleting == (todos[i].deleting || todos[i].id == id)
              && r[i].(deleting := todos[i].deleting) == todos[i]
  {
    UpdateWhere(todos, id, MarkDeleting)
  }

  // ---------------------------------------------------------------------------------------
  // deleteTodo phase 2 (src/authapp.js:270-276)
  // ---------------------------------------------------------------------------------------

  predicate HasOtherId(id: nat, t: Todo) { t.id != id }

  /**
   * Phase 2 of `deleteTodo(id)`, run when the timer fires: every record with this id leaves the
   * list, every other record stays as often as it was there, in its original relative order.
   */
  function RemoveById(todos: seq<Todo>, id: nat): (r: seq<Todo>)
    ensures forall t: Todo :: t in r ==> t.id != id
    ensures forall t: Todo :: t.id != id ==> multiset(r)[t] == multiset(todos)[t]
    ensures IsSubsequence(r, todos)
  {
    Filter(todos, t => HasOtherId(id, t))
  }

  /**
   * The two delete phases together remove exactly what phase 2 alone removes: flagging a
   * record never lets it survive, and never touches a record that survives.
   */
  lemma {:induction false} DeletePhasesCompose(todos: seq<Todo>, id: nat)
    ensures RemoveById(MarkForDeletion(todos, id), id) == RemoveById(todos, id)
  {
    if todos != [] {
      var marked := MarkForDeletion(todos, id);
      DeletePhasesCompose(todos[1..], id);
      assert marked[1..] == MarkForDeletion(todos[1..], id) by {
        var tail := MarkForDeletion(todos[1..], id);
        assert |marked[1..]| == |tail|;
        forall i | 0 <= i < |tail| ensures marked[1..][i] == tail[i] {
          assert marked[1..][i] == marked[i + 1];
        }
      }
      assert marked[0].id == todos[0].id;
    }
  }

  // ---------------------------------------------------------------------------------------
  // filteredTodos (src/authapp.js:279-286)
  // ---------------------------------------------------------------------------------------

  /**
   * The order of the sort comparator: `a` may stand before `b` when `a` is important and `b`
   * is not, or when both agree on importance and `a` is not older than `b`.
   */
  predicate InOrder(a: Todo, b: Todo) {
    (a.important && !b.important) || (a.important == b.important && a.createdAt >= b.createdAt)
  }

  /** Every earlier element may stand before every later one. */
  predicate Ordered(s: seq<Todo>) {
    forall i, j :: 0 <= i < j < |s| ==> InOrder(s[i], s[j])
  }

  /** Inserts `x` in front of the first element it may precede (so before its equals: stable). */
  function Insert(x: Todo, s: seq<Todo>): (r: seq<Todo>)
    requires Ordered(s)
    ensures multiset(r) == multiset(s) + multiset{x}
    ensures Ordered(r)
  {
    if s == [] || InOrder(x, s[0]) then
      OrderedCons(x, s);
      [x] + s
    else
      var rest := Insert(x, s[1..]);
      assert s == [s[0]] + s[1..];
      HeadPrecedesInserted(s[0], x, s[1..], rest);
      OrderedCons(s[0], rest);
      [s[0]] + rest
  }

  /** An element that may precede every element of an ordered list may go in front of it. */
  lemma OrderedCons(h: Todo, t: seq<Todo>)
    requires Ordered(t)
    requires t == [] || InOrder(h, t[0])
    ensures Ordered([h] + t)
  {
    var r := [h] + t;
    forall i, j | 0 <= i < j < |r|
      ensures InOrder(r[i], r[j])
    {
      if i == 0 && j > 1 {
        assert r[1] == t[0] && r[j] == t[j - 1];
      }
    }
  }

  /**
   * The head of an ordered list may still precede every element once `x`, which it may
   * precede, is inserted into the tail.
   */
  lemma HeadPrecedesInserted(h: Todo, x: Todo, t: seq<Todo>, rest: seq<Todo>)
    requires Ordered([h] + t) && !InOrder(x, h)
    requires multiset(rest) == multiset(t) + multiset{x}
    ensures rest == [] || InOrder(h, rest[0])
  {
    if rest != [] {
      assert rest[0] in multiset(rest);
      if rest[0] != x {
        assert rest[0] in multiset(t);
        var k :| 0 <= k < |t| && t[k] == rest[0];
        assert ([h] + t)[0] == h && ([h] + t)[k + 1] == t[k];
      }
    }
  }

  /** `[...todos].sort(cmp)`: a stable sort of a copy, important first, then newest first. */
  function SortTodos(s: seq<Todo>): (r: seq<Todo>)
    ensures multiset(r) == multiset(s) && |r| == |s|
    ensures Ordered(r)
  {
    if s == [] then []
    else
      assert s == [s[0]] + s[1..];
      Insert(s[0], SortTodos(s[1..]))
  }

  /**
   * Records that `p` picks out are pairwise tied: equal in importance and in creation time, so
   * the comparator returns 0 for any two of them.
   */
  ghost predicate AllTied(p: Todo -> bool) {
    forall y, z :: p(y) && p(z) ==> InOrder(y, z)
  }

  /** Insertion puts `x` in front of every record it ties with. */
  lemma {:induction false} InsertKeepsTies(x: Todo, s: seq<Todo>, p: Todo -> bool)
    requires Ordered(s) && AllTied(p)
    ensures Filter(Insert(x, s), p) == (if p(x) then [x] else []) + Filter(s, p)
    decreases |s|
  {
    if s == [] || InOrder(x, s[0]) {
      FilterUnfold(x, s, p);
    } else {
      var h, t := s[0], s[1..];
      var rest := Insert(x, t);
      assert Insert(x, s) == [h] + rest;
      assert s == [h] + t;
      InsertKeepsTies(x, t, p);
      FilterUnfold(h, rest, p);
      FilterUnfold(h, t, p);
      if p(x) {
        assert !p(h);
        assert Filter(Insert(x, s), p) == Filter(rest, p) == [x] + Filter(t, p);
      } else {
        assert Filter(rest, p) == Filter(t, p);
      }
    }
  }

  /** One step of `Filter` on a list with a known first element. */
  lemma FilterUnfold(t: Todo, rest: seq<Todo>, p: Todo -> bool)
    ensures Filter([t] + rest, p) == (if p(t) then [t] else []) + Filter(rest, p)
  {
    assert ([t] + rest)[1..] == rest;
  }

  /**
   * The sort is stable: records that tie under the comparator come out in the order they went
   * in, as `Array.prototype.sort` guarantees.
   */
  lemma {:induction false} SortStable(s: seq<Todo>, p: Todo -> bool)
    requires AllTied(p)
    ensures Filter(SortTodos(s), p) == Filter(s, p)
  {
    if s != [] {
      SortStable(s[1..], p);
      InsertKeepsTies(s[0], SortTodos(s[1..]), p);
      assert s == [s[0]] + s[1..];
    }
  }

  /** A record the status filter lets through: `'active'`, `'completed'`, anything else keeps all. */
  predicate PassesStatus(filter: string, t: Todo) {
    if filter == "active" then !t.completed
    else if filter == "completed" then t.completed
    else true
  }

  /** The search term as the component uses it: lower-cased, then trimmed. */
  function SearchKey(search: string): string {
    Trim(Lower(search))
  }

  /** A record the search lets through: an empty key keeps all, otherwise a substring match. */
  predicate PassesSearch(key: string, t: Todo) {
    key == [] || Contains(Lower(t.text), key)
  }

  predicate NotDeleting(t: Todo) { !t.deleting }

  /** What `filteredTodos` keeps of a record, whatever its position. */
  predicate Visible(filter: string, search: string, t: Todo) {
    PassesStatus(filter, t) && PassesSearch(SearchKey(search), t) && !t.deleting
  }

  /**
   * `filteredTodos`: sort a copy, apply the status filter, the search, and drop records being
   * deleted. The result holds exactly the visible records, each as often as in `todos`, in
   * sorted order; `todos` itself is a value and cannot change.
   */
  function FilteredTodos(todos: seq<Todo>, filter: string, search: string): (r: seq<Todo>)
    ensures forall t :: multiset(r)[t] == if Visible(filter, search, t) then multiset(todos)[t] else 0
    ensures forall t :: t in r <==> t in todos && Visible(filter, search, t)
    ensures forall t :: t in r ==> !t.deleting && PassesStatus(filter, t)
    ensures Ordered(r)
    ensures IsSubsequence(r, SortTodos(todos))
  {
    var sorted := SortTodos(todos);
    var byStatus := Filter(sorted, t => PassesStatus(filter, t));
    var key := SearchKey(search);
    var bySearch := if key != [] then Filter(byStatus, t => PassesSearch(key, t)) else byStatus;
    var r := Filter(bySearch, NotDeleting);
    FilterChain(todos, filter, search, sorted, byStatus, bySearch, r);
    r
  }

  /** The three filters of `filteredTodos` applied to the sorted copy, stage by stage. */
  lemma FilterChain(todos: seq<Todo>, filter: string, search: string, sorted: seq<Todo>,
                    byStatus: seq<Todo>, bySearch: seq<Todo>, r: seq<Todo>)
    requires sorted == SortTodos(todos)
    requires byStatus == Filter(sorted, t => PassesStatus(filter, t))
    requires bySearch == if SearchKey(search) != [] then Filter(byStatus, t => PassesSearch(SearchKey(search), t)) else byStatus
    requires r == Filter(bySearch, NotDeleting)
    ensures forall t :: multiset(r)[t] == if Visible(filter, search, t) then multiset(todos)[t] else 0
    ensures forall t :: t in r <==> t in todos && Visible(filter, search, t)
    ensures forall t :: t in r ==> !t.deleting && PassesStatus(filter, t)
    ensures Ordered(r)
    ensures IsSubsequence(r, sorted)
  {
    var key := SearchKey(search);
    forall t ensures multiset(bySearch)[t] == if PassesSearch(key, t) then multiset(byStatus)[t] else 0 {
    }
    forall t ensures multiset(r)[t] == if Visible(filter, search, t) then multiset(todos)[t] else 0 {
      assert multiset(byStatus)[t] == if PassesStatus(filter, t) then multiset(sorted)[t] else 0;
    }
    forall t ensures t in r <==> t in todos && Visible(filter, search, t) {
      assert t in sorted <==> t in todos by {
        assert t in sorted <==> t in multiset(sorted);
        assert t in todos <==> t in multiset(todos);
      }
    }
    OrderedSubsequence(byStatus, sorted);
    if key == [] {
      SubsequenceReflexive(byStatus);
    }
    OrderedSubsequence(bySearch, byStatus);
    OrderedSubsequence(r, bySearch);
    SubsequenceTransitive(bySearch, byStatus, sorted);
    SubsequenceTransitive(r, bySearch, sorted);
  }

  /** A sublist of a sorted list is sorted. */
  lemma {:induction false} OrderedSubsequence(a: seq<Todo>, b: seq<Todo>)
    requires Ordered(b) && IsSubsequence(a, b)
    ensures Ordered(a)
    decreases |b|
  {
    if a != [] {
      if a[0] == b[0] && IsSubsequence(a[1..], b[1..]) {
        OrderedSubsequence(a[1..], b[1..]);
        SubsequenceMembers(a[1..], b[1..]);
        forall i, j | 0 <= i < j < |a| ensures InOrder(a[i], a[j]) {
          if i > 0 {
            assert a[i] == a[1..][i - 1] && a[j] == a[1..][j - 1];
          } else {
            assert a[j] in a[1..];
            var k :| 0 <= k < |b[1..]| && b[1..][k] == a[j];
            assert b[k + 1] == a[j];
          }
        }
      } else {
        OrderedSubsequence(a, b[1..]);
      }
    }
  }

  /** In the view every important record comes before every record that is not important. */
  lemma ImportantFirst(todos: seq<Todo>, filter: string, search: string, i: int, j: int)
    requires 0 <= i < j < |FilteredTodos(todos, filter, search)|
    requires FilteredTodos(todos, filter, search)[j].important
    ensures FilteredTodos(todos, filter, search)[i].important
  {
  }

  // ---------------------------------------------------------------------------------------
  // Counts and progress (src/authapp.js:288-291)
  // ---------------------------------------------------------------------------------------

  predicate IsActive(t: Todo) { !t.completed && !t.deleting }
  predicate IsCompleted(t: Todo) { t.completed && !t.deleting }

  /** `activeTodoCount`: incomplete records not being deleted. */
  function ActiveCount(todos: seq<Todo>): nat { |Filter(todos, IsActive)| }

  /** `completedTodoCount`: completed records not being deleted. */
  function CompletedCount(todos: seq<Todo>): nat { |Filter(todos, IsCompleted)| }

  /** `totalTodoCount`: records not being deleted. */
  function TotalCount(todos: seq<Todo>): nat { |Filter(todos, NotDeleting)| }

  /** The active and completed counts partition the total, which never exceeds the list. */
  lemma {:induction false} CountsAddUp(todos: seq<Todo>)
    ensures ActiveCount(todos) + CompletedCount(todos) == TotalCount(todos) <= |todos|
  {
    if todos != [] {
      var t, rest := todos[0], todos[1..];
      CountsAddUp(rest);
      assert todos == [t] + rest;
      assert |Filter(todos, IsActive)| == |Filter(rest, IsActive)| + (if IsActive(t) then 1 else 0);
      assert |Filter(todos, IsCompleted)| == |Filter(rest, IsCompleted)| + (if IsCompleted(t) then 1 else 0);
      assert |Filter(todos, NotDeleting)| == |Filter(rest, NotDeleting)| + (if NotDeleting(t) then 1 else 0);
    }
  }

  /**
   * `todoProgress`: `Math.round(completed / total * 100)`, or 0 with no tasks. It is the whole
   * percentage nearest to `100 * completed / total`, halves rounded up.
   */
  function Progress(completed: nat, total: nat): (r: nat)
    requires completed <= total
    ensures total == 0 ==> r == 0
    ensures total > 0 ==> 2 * total * r <= 200 * completed + total < 2 * total * (r + 1)
    ensures r <= 100
    ensures completed == 0 ==> r == 0
    ensures total > 0 && completed == total ==> r == 100
  {
    if total == 0 then 0
    else
      var r := (200 * completed + total) / (2 * total);
      ProgressBounds(completed, total, r);
      r
  }

  lemma ProgressBounds(completed: nat, total: nat, r: nat)
    requires 0 < total && completed <= total
    requires r == (200 * completed + total) / (2 * total)
    ensures 2 * total * r <= 200 * completed + total < 2 * total * (r + 1)
    ensures r <= 100
    ensures completed == 0 ==> r == 0
    ensures completed == total ==> r == 100
  {
    var n, d := 200 * completed + total, 2 * total;
    assert d * r + n % d == n && 0 <= n % d < d;
    assert d * (r + 1) == d * r + d;
    assert n <= d * 100 + total by {
      assert 200 * completed <= 200 * total;
    }
    if r > 100 {
      MulMonotone(d, 101, r);
      assert false;
    }
    if completed == 0 && r > 0 {
      MulMonotone(d, 1, r);
      assert false;
    }
    if completed == total && r < 100 {
      MulMonotone(d, r + 1, 100);
      assert false;
    }
  }

  lemma MulMonotone(d: nat, a: nat, b: nat)
    requires a <= b
    ensures d * a <= d * b
  {
    assert d * b == d * a + d * (b - a);
  }

  /** The counts of the whole list: what the progress figure reads. */
  function TodoProgress(todos: seq<Todo>): (r: nat)
    ensures r <= 100
    ensures TotalCount(todos) == 0 ==> r == 0
  {
    CountsAddUp(todos);
    Progress(CompletedCount(todos), TotalCount(todos))
  }

  // ---------------------------------------------------------------------------------------
  // How the updaters and the projections fit together
  // ---------------------------------------------------------------------------------------

  /** Lengths of a filter over a list with one more element in front. */
  lemma FilterCons(t: Todo, rest: seq<Todo>, p: Todo -> bool)
    ensures |Filter([t] + rest, p)| == |Filter(rest, p)| + (if p(t) then 1 else 0)
  {
    assert ([t] + rest)[1..] == rest;
  }

  /**
   * After a successful add the new task is shown under every filter but `'completed'` (with no
   * search), and the active and total counts grow by one while the completed count stays.
   */
  lemma AddTodoShown(todos: seq<Todo>, input: string, id: nat, now: nat, filter: string)
    requires !IsBlank(input) && filter != "completed"
    ensures var r := AddTodo(todos, input, id, now);
            r[0] in FilteredTodos(r, filter, "")
            && ActiveCount(r) == ActiveCount(todos) + 1
            && CompletedCount(r) == CompletedCount(todos)
            && TotalCount(r) == TotalCount(todos) + 1
  {
    var r := AddTodo(todos, input, id, now);
    assert r == [r[0]] + todos;
    FilterCons(r[0], todos, IsActive);
    FilterCons(r[0], todos, IsCompleted);
    FilterCons(r[0], todos, NotDeleting);
    assert SearchKey("") == [] by {
      assert Lower("") == "";
    }
  }

  /**
   * Between the two delete phases a flagged task is still in the list, with all its fields but
   * `deleting` intact, yet no view shows a task with that id any more.
   */
  lemma MarkedHiddenButKept(todos: seq<Todo>, id: nat, filter: string, search: string, i: int)
    requires 0 <= i < |todos| && todos[i].id == id
    ensures MarkForDeletion(todos, id)[i] == todos[i].(deleting := true)
    ensures forall t :: t in FilteredTodos(MarkForDeletion(todos, id), filter, search) ==> t.id != id
  {
    var marked := MarkForDeletion(todos, id);
    var view := FilteredTodos(marked, filter, search);
    forall t | t in view ensures t.id != id {
      assert t in marked && !t.deleting;
      var k :| 0 <= k < |marked| && marked[k] == t;
      assert marked[k].(deleting := todos[k].deleting) == todos[k];
      assert t.id == todos[k].id;
    }
  }

  /** The dashboard's active count is the length of the `'active'` view with no search. */
  lemma {:induction false} ActiveCountIsActiveView(todos: seq<Todo>)
    ensures ActiveCount(todos) == |FilteredTodos(todos, "active", "")|
  {
    var view := FilteredTodos(todos, "active", "");
    var direct := Filter(todos, IsActive);
    assert SearchKey("") == [] by {
      assert Lower("") == "";
    }
    forall t ensures multiset(view)[t] == multiset(direct)[t] {
    }
    assert multiset(view) == multiset(direct);
    assert |view| == |multiset(view)| == |multiset(direct)| == |direct|;
  }
}
