/** The in-memory todo repository: a map from id to record and a counter
    that hands out ids. Every operation is one atomic step on that state. */
module Store {
  import opened Models
  import opened Sorting

  /** The store's errors. Only `TodoNotFound` is ever returned; `InvalidId`
      is declared beside it but no store operation produces it. */
  datatype StoreError = TodoNotFound | InvalidId

  datatype Result<T> = Ok(value: T) | Err(error: StoreError)

  /** The aggregate counts: totals, and histograms by priority and by
      (non-empty) category. */
  datatype Stats = Stats(
    total: nat,
    completed: nat,
    pending: nat,
    overdue: nat,
    byPriority: map<int, nat>,
    byCategory: map<string, nat>)

  const Hour: int := 3600
  const Day: int := 24 * Hour

  /** The three sample records the store starts with, dated relative to
      the instant `now` at which it is built. */
  function SeedTodos(now: Time): (m: map<int, Todo>)
    ensures m.Keys == {1, 2, 3}
    ensures forall k :: k in m ==> m[k].id == k && m[k].createdAt <= m[k].updatedAt <= now
    ensures m[2].completed && !m[1].completed && !m[3].completed
    ensures !IsOverdue(m[1], now) && !IsOverdue(m[3], now)
  {
    map[
      1 := Todo(1, "学习 Go 语言", "掌握 Go 语言的基础语法和并发编程", false, 3, "学习",
                Some(now + 7 * Day), now - 2 * Day, now - 2 * Day),
      2 := Todo(2, "编写 HTTP 服务器", "使用 Go 实现一个完整的 HTTP 服务器", true, 4, "项目",
                Some(now - 1 * Day), now - 3 * Day, now - 1 * Day),
      3 := Todo(3, "部署到服务器", "将应用部署到生产环境", false, 2, "运维",
                Some(now + 3 * Day), now - 1 * Day, now - 1 * Day)]
  }

  // ---------------------------------------------------------------------
  // Text search

  /** `sub` occurs in `s` starting at position `i`. */
  ghost predicate OccursAt(sub: string, s: string, i: int) {
    0 <= i && i + |sub| <= |s| && s[i..i + |sub|] == sub
  }

  /** `sub` occurs as a contiguous run of `s`. */
  ghost predicate IsSubstring(sub: string, s: string) {
    exists i :: OccursAt(sub, s, i)
  }

  /** Case-sensitive substring test. */
  function Contains(s: string, sub: string): (b: bool)
    ensures b <==> IsSubstring(sub, s)
    decreases |s|
  {
    if |sub| > |s| then false
    else if s[..|sub|] == sub then assert OccursAt(sub, s, 0); true
    else
      var b := Contains(s[1..], sub);
      assert IsSubstring(sub, s[1..]) ==> IsSubstring(sub, s) by {
        if IsSubstring(sub, s[1..]) {
          var i :| OccursAt(sub, s[1..], i);
          assert s[1..][i..i + |sub|] == s[i + 1..i + 1 + |sub|];
          assert OccursAt(sub, s, i + 1);
        }
      }
      assert IsSubstring(sub, s) ==> IsSubstring(sub, s[1..]) by {
        if IsSubstring(sub, s) {
          var i :| OccursAt(sub, s, i);
          assert i != 0;
          assert s[1..][i - 1..i - 1 + |sub|] == s[i..i + |sub|];
          assert OccursAt(sub, s[1..], i - 1);
        }
      }
      b
  }

  /** The search criteria a record must meet: an empty query, or the query
      inside the title or the description; an empty category, or exactly
      that category; no completion filter, or that completion state. */
  ghost predicate Selected(t: Todo, query: string, category: string, completed: Option<bool>) {
    && (query == [] || IsSubstring(query, t.title) || IsSubstring(query, t.description))
    && (category == [] || t.category == category)
    && (completed.None? || t.completed == completed.value)
  }

  // ---------------------------------------------------------------------
  // Counting

  /** The sum of a map's counts. */
  ghost function Sum<K>(m: map<K, nat>): nat
    decreases |m|
  {
    if m == map[] then 0
    else
      var k :| k in m;
      assert |m - {k}| < |m| by { assert (m - {k}).Keys == m.Keys - {k}; }
      m[k] + Sum(m - {k})
  }

  /** The sum does not depend on which key is taken out first. */
  lemma {:induction false} SumRemove<K>(m: map<K, nat>, k: K)
    requires k in m
    ensures Sum(m) == m[k] + Sum(m - {k})
    decreases |m|
  {
    var j :| j in m && Sum(m) == m[j] + Sum(m - {j});
    if j != k {
      assert (m - {j}).Keys == m.Keys - {j};
      SumRemove(m - {j}, k);
      assert (m - {k}).Keys == m.Keys - {k};
      SumRemove(m - {k}, j);
      assert m - {j} - {k} == m - {k} - {j};
    }
  }

  /** The count at `k` of a histogram, zero when `k` is not a key. */
  function CountAt<K>(m: map<K, nat>, k: K): nat {
    if k in m then m[k] else 0
  }

  /** One more occurrence of `k` in a histogram. */
  function Increment<K>(m: map<K, nat>, k: K): (r: map<K, nat>)
    ensures r.Keys == m.Keys + {k} && r[k] == CountAt(m, k) + 1
    ensures forall j :: j in m && j != k ==> r[j] == m[j]
    ensures Sum(r) == Sum(m) + 1
  {
    SumIncrement(m, k);
    m[k := CountAt(m, k) + 1]
  }

  /** Raising one count of a histogram by one raises its sum by one. */
  lemma SumIncrement<K>(m: map<K, nat>, k: K)
    ensures Sum(m[k := CountAt(m, k) + 1]) == Sum(m) + 1
  {
    var r := m[k := CountAt(m, k) + 1];
    SumRemove(r, k);
    assert r - {k} == m - {k};
    if k in m {
      SumRemove(m, k);
    } else {
      assert m - {k} == m;
    }
  }

  ghost function CompletedKeys(m: map<int, Todo>, ks: set<int>): set<int> {
    set k | k in ks && k in m && m[k].completed
  }

  ghost function PendingKeys(m: map<int, Todo>, ks: set<int>): set<int> {
    set k | k in ks && k in m && !m[k].completed
  }

  ghost function OverdueKeys(m: map<int, Todo>, ks: set<int>, now: Time): set<int> {
    set k | k in ks && k in m && IsOverdue(m[k], now)
  }

  ghost function PriorityKeys(m: map<int, Todo>, ks: set<int>, p: int): set<int> {
    set k | k in ks && k in m && m[k].priority == p
  }

  ghost function CategoryKeys(m: map<int, Todo>, ks: set<int>, c: string): set<int> {
    set k | k in ks && k in m && m[k].category == c
  }

  ghost function CategorizedKeys(m: map<int, Todo>, ks: set<int>): set<int> {
    set k | k in ks && k in m && m[k].category != []
  }

  ghost function Priorities(m: map<int, Todo>, ks: set<int>): set<int> {
    set k | k in ks && k in m :: m[k].priority
  }

  ghost function Categories(m: map<int, Todo>, ks: set<int>): set<string> {
    set k | k in ks && k in m && m[k].category != [] :: m[k].category
  }

  /** The three counters of `st` count the records of `m` under the keys
      `ks` that are completed, pending and overdue. */
  ghost predicate CountersTally(st: Stats, m: map<int, Todo>, ks: set<int>, now: Time) {
    && st.completed == |CompletedKeys(m, ks)|
    && st.pending == |PendingKeys(m, ks)|
    && st.overdue == |OverdueKeys(m, ks, now)|
    && st.completed + st.pending == |ks|
    && st.overdue <= st.pending
  }

  /** The priority histogram of `st` has one entry per priority occurring
      under the keys `ks`, holding the number of records with it. */
  ghost predicate PrioritiesTally(st: Stats, m: map<int, Todo>, ks: set<int>) {
    && st.byPriority.Keys == Priorities(m, ks)
    && (forall p :: p in st.byPriority ==> st.byPriority[p] == |PriorityKeys(m, ks, p)|)
    && Sum(st.byPriority) == |ks|
  }

  /** The category histogram of `st` has one entry per non-empty category
      occurring under the keys `ks`, holding the number of records in it. */
  ghost predicate CategoriesTally(st: Stats, m: map<int, Todo>, ks: set<int>) {
    && st.byCategory.Keys == Categories(m, ks)
    && (forall c :: c in st.byCategory ==> st.byCategory[c] == |CategoryKeys(m, ks, c)|)
    && Sum(st.byCategory) == |CategorizedKeys(m, ks)|
  }

  /** `st` tallies the records of `m` under the keys `ks`. */
  ghost predicate Tallies(st: Stats, m: map<int, Todo>, ks: set<int>, now: Time) {
    CountersTally(st, m, ks, now) && PrioritiesTally(st, m, ks) && CategoriesTally(st, m, ks)
  }

  /** Counts one more record into the tallies: it is counted as completed,
      pending and overdue exactly when its response at `now` says so, and
      once under its priority and its (non-empty) category. */
  function Count(st: Stats, t: Todo, now: Time): (r: Stats)
    ensures r.total == st.total
    ensures r.completed == st.completed + (if ToResponse(t, now).status == Completed then 1 else 0)
    ensures r.pending == st.pending + (if ToResponse(t, now).status == Completed then 0 else 1)
    ensures r.overdue == st.overdue + (if ToResponse(t, now).isOverdue then 1 else 0)
    ensures Sum(r.byPriority) == Sum(st.byPriority) + 1
    ensures r.byPriority.Keys == st.byPriority.Keys + {t.priority}
    ensures Sum(r.byCategory) == Sum(st.byCategory) + (if t.category != [] then 1 else 0)
  {
    var counted :=
      if t.completed then st.(completed := st.completed + 1)
      else if t.dueDate.Some? && t.dueDate.value < now then st.(pending := st.pending + 1, overdue := st.overdue + 1)
      else st.(pending := st.pending + 1);
    var ranked := counted.(byPriority := Increment(counted.byPriority, t.priority));
    if t.category != [] then ranked.(byCategory := Increment(ranked.byCategory, t.category))
    else ranked
  }

  /** Zero counters and empty histograms tally no keys at all. */
  lemma NothingTallied(st: Stats, m: map<int, Todo>, now: Time)
    requires st.completed == st.pending == st.overdue == 0
    requires st.byPriority == map[] && st.byCategory == map[]
    ensures Tallies(st, m, {}, now)
  {
    assert CompletedKeys(m, {}) == {} && PendingKeys(m, {}) == {};
    assert OverdueKeys(m, {}, now) == {} && CategorizedKeys(m, {}) == {};
    assert Priorities(m, {}) == {} && Categories(m, {}) == {};
  }

  /** Counting the record under a key not yet tallied yields the tallies of
      the keys with that one added. */
  lemma CountStep(st: Stats, m: map<int, Todo>, ks: set<int>, k: int, now: Time)
    requires k in m && k !in ks && Tallies(st, m, ks, now)
    ensures Tallies(Count(st, m[k], now), m, ks + {k}, now)
  {
    var r := Count(st, m[k], now);
    CountersStep(st, r, m, ks, k, now);
    PrioritiesStep(st, r, m, ks, k);
    CategoriesStep(st, r, m, ks, k);
  }

  lemma CountersStep(st: Stats, r: Stats, m: map<int, Todo>, ks: set<int>, k: int, now: Time)
    requires k in m && k !in ks && CountersTally(st, m, ks, now)
    requires r.completed == st.completed + (if m[k].completed then 1 else 0)
    requires r.pending == st.pending + (if m[k].completed then 0 else 1)
    requires r.overdue == st.overdue + (if IsOverdue(m[k], now) then 1 else 0)
    ensures CountersTally(r, m, ks + {k}, now)
  {
    CompletedStep(m, ks, k);
    PendingStep(m, ks, k);
    OverdueStep(m, ks, k, now);
  }

  lemma CompletedStep(m: map<int, Todo>, ks: set<int>, k: int)
    requires k in m && k !in ks
    ensures |CompletedKeys(m, ks + {k})| == |CompletedKeys(m, ks)| + (if m[k].completed then 1 else 0)
  {
    assert CompletedKeys(m, ks + {k}) == CompletedKeys(m, ks) + (if m[k].completed then {k} else {});
  }

  lemma PendingStep(m: map<int, Todo>, ks: set<int>, k: int)
    requires k in m && k !in ks
    ensures |PendingKeys(m, ks + {k})| == |PendingKeys(m, ks)| + (if m[k].completed then 0 else 1)
  {
    assert PendingKeys(m, ks + {k}) == PendingKeys(m, ks) + (if m[k].completed then {} else {k});
  }

  lemma OverdueStep(m: map<int, Todo>, ks: set<int>, k: int, now: Time)
    requires k in m && k !in ks
    ensures |OverdueKeys(m, ks + {k}, now)| == |OverdueKeys(m, ks, now)| + (if IsOverdue(m[k], now) then 1 else 0)
  {
    assert OverdueKeys(m, ks + {k}, now) == OverdueKeys(m, ks, now) + (if IsOverdue(m[k], now) then {k} else {});
  }

  lemma PrioritiesStep(st: Stats, r: Stats, m: map<int, Todo>, ks: set<int>, k: int)
    requires k in m && k !in ks && PrioritiesTally(st, m, ks)
    requires r.byPriority == Increment(st.byPriority, m[k].priority)
    ensures PrioritiesTally(r, m, ks + {k})
  {
    var q := m[k].priority;
    PrioritiesGrow(m, ks, k);
    forall p | p in r.byPriority
      ensures r.byPriority[p] == |PriorityKeys(m, ks + {k}, p)|
    {
      PriorityKeysStep(m, ks, k, p);
      if p == q && p !in st.byPriority {
        OccurringPriority(m, ks, p);
      }
    }
  }

  lemma PriorityKeysStep(m: map<int, Todo>, ks: set<int>, k: int, p: int)
    requires k in m && k !in ks
    ensures |PriorityKeys(m, ks + {k}, p)| == |PriorityKeys(m, ks, p)| + (if m[k].priority == p then 1 else 0)
  {
    assert PriorityKeys(m, ks + {k}, p) == PriorityKeys(m, ks, p) + (if m[k].priority == p then {k} else {});
  }

  lemma PrioritiesGrow(m: map<int, Todo>, ks: set<int>, k: int)
    requires k in m
    ensures Priorities(m, ks + {k}) == Priorities(m, ks) + {m[k].priority}
  {
  }

  lemma OccurringPriority(m: map<int, Todo>, ks: set<int>, p: int)
    ensures PriorityKeys(m, ks, p) != {} ==> p in Priorities(m, ks)
  {
    if PriorityKeys(m, ks, p) != {} {
      Inhabited(PriorityKeys(m, ks, p));
      var j :| j in PriorityKeys(m, ks, p);
      assert m[j].priority == p;
    }
  }

  lemma CategoriesStep(st: Stats, r: Stats, m: map<int, Todo>, ks: set<int>, k: int)
    requires k in m && k !in ks && CategoriesTally(st, m, ks)
    requires r.byCategory == if m[k].category != [] then Increment(st.byCategory, m[k].category) else st.byCategory
    ensures CategoriesTally(r, m, ks + {k})
  {
    var q := m[k].category;
    CategoriesGrow(m, ks, k);
    CategorizedStep(m, ks, k);
    forall c | c in r.byCategory
      ensures r.byCategory[c] == |CategoryKeys(m, ks + {k}, c)|
    {
      CategoryKeysStep(m, ks, k, c);
      if c == q && c !in st.byCategory {
        OccurringCategory(m, ks, c);
      }
    }
  }

  lemma CategoryKeysStep(m: map<int, Todo>, ks: set<int>, k: int, c: string)
    requires k in m && k !in ks
    ensures |CategoryKeys(m, ks + {k}, c)| == |CategoryKeys(m, ks, c)| + (if m[k].category == c then 1 else 0)
  {
    assert CategoryKeys(m, ks + {k}, c) == CategoryKeys(m, ks, c) + (if m[k].category == c then {k} else {});
  }

  lemma CategorizedStep(m: map<int, Todo>, ks: set<int>, k: int)
    requires k in m && k !in ks
    ensures |CategorizedKeys(m, ks + {k})| == |CategorizedKeys(m, ks)| + (if m[k].category != [] then 1 else 0)
  {
    assert CategorizedKeys(m, ks + {k}) == CategorizedKeys(m, ks) + (if m[k].category != [] then {k} else {});
  }

  lemma CategoriesGrow(m: map<int, Todo>, ks: set<int>, k: int)
    requires k in m
    ensures Categories(m, ks + {k}) == Categories(m, ks) + (if m[k].category != [] then {m[k].category} else {})
  {
  }

  lemma OccurringCategory(m: map<int, Todo>, ks: set<int>, c: string)
    ensures c != [] && CategoryKeys(m, ks, c) != {} ==> c in Categories(m, ks)
  {
    if c != [] && CategoryKeys(m, ks, c) != {} {
      Inhabited(CategoryKeys(m, ks, c));
      var j :| j in CategoryKeys(m, ks, c);
      assert m[j].category == c;
    }
  }

  /** The statistics and the responses agree: the overdue counter of the
      tallies of a whole store is the number of records whose response at
      the same instant carries the overdue status. */
  lemma OverdueCountMatchesResponses(st: Stats, m: map<int, Todo>, now: Time)
    requires CountersTally(st, m, m.Keys, now)
    ensures st.overdue == |set k | k in m && ToResponse(m[k], now).status == Overdue|
  {
    var shown := set k | k in m && ToResponse(m[k], now).status == Overdue;
    forall k ensures k in shown <==> k in OverdueKeys(m, m.Keys, now) {
      if k in m {
        var r := ToResponse(m[k], now);
        assert r.status == Overdue <==> IsOverdue(m[k], now);
      }
    }
    assert shown == OverdueKeys(m, m.Keys, now);
  }

  /** The only tallies of an empty store are zero counters and empty
      histograms. */
  lemma EmptyStoreStats(st: Stats, now: Time)
    requires st.total == 0 && Tallies(st, map[], {}, now)
    ensures st == Stats(0, 0, 0, 0, map[], map[])
  {
    assert CompletedKeys(map[], {}) == {} && PendingKeys(map[], {}) == {};
    assert OverdueKeys(map[], {}, now) == {};
    assert Priorities(map[], {}) == {} && Categories(map[], {}) == {};
    assert st.byPriority == map[];
    assert st.byCategory == map[];
  }

  /** A non-empty set has an element. */
  lemma Inhabited(s: set<int>)
    requires s != {}
    ensures exists k :: k in s
  {
    if forall k :: k !in s { assert false; }
  }

  /** A value of a map is stored under some key. */
  lemma StoredUnderSomeKey(m: map<int, Todo>, v: Todo)
    requires v in m.Values
    ensures exists k :: k in m && m[k] == v
  {
    if forall k :: k in m ==> m[k] != v { assert false; }
  }

  // ---------------------------------------------------------------------
  // The store

  class MemoryStore {
    var todos: map<int, Todo>
    var nextID: int
    /** Every id ever handed out, including those since deleted. */
    ghost var issued: set<int>
    /** The latest instant at which the store stamped a record. Instants
        come from a monotonic clock, so every later call passes an instant
        no earlier than this one. */
    ghost var clock: Time

    /** Every stored record sits under its own id; every id handed out so
        far lies between 1 and the counter; every stored id was handed out;
        no record was updated before it was created, nor after the latest
        stamp. */
    ghost predicate Valid()
      reads this
    {
      && 1 <= nextID
      && todos.Keys <= issued
      && (forall k :: k in issued ==> 1 <= k < nextID)
      && (forall k :: k in todos ==> todos[k].id == k)
      && (forall k :: k in todos ==> todos[k].createdAt <= todos[k].updatedAt <= clock)
    }

    /** A store holding the three sample records, numbered 1 to 3, whose
        next id is 4. */
    constructor (now: Time)
      ensures Valid()
      ensures todos == SeedTodos(now) && nextID == 4 && issued == {1, 2, 3}
      ensures clock == now
    {
      todos := map[];
      nextID := 1;
      issued := {};
      clock := now;
      new;
      Seed(now);
    }

    /** Stores the sample records under ids 1 to 3 (replacing what is there)
        and sets the counter to 4. The invariant survives only when the
        counter had not gone past 4, as on a new store. */
    method Seed(now: Time)
      requires Valid() && clock <= now
      modifies this
      ensures todos == old(todos) + SeedTodos(now) && nextID == 4
      ensures issued == old(issued) + {1, 2, 3} && clock == now
      ensures old(nextID) <= 4 ==> Valid()
    {
      todos := todos + SeedTodos(now);
      nextID := 4;
      issued := issued + {1, 2, 3};
      clock := now;
    }

    /** Every stored record, newest first. */
    method GetAllTodos() returns (r: seq<Todo>)
      requires Valid()
      ensures |r| == |todos| && Distinct(r)
      ensures forall t :: t in r <==> t in todos.Values
      ensures SortedBy(NewestFirst, r)
    {
      var all := Collect();
      r := Sort(NewestFirst, all);
      PermutationKeepsDistinct(all, r);
      assert forall t :: t in r <==> t in multiset(all);
    }

    /** The stored records, in no particular order. */
    method Collect() returns (r: seq<Todo>)
      requires Valid()
      ensures |r| == |todos| && Distinct(r)
      ensures forall t :: t in r <==> t in todos.Values
    {
      r := [];
      var rest := todos.Keys;
      ghost var done: set<int> := {};
      while rest != {}
        invariant done + rest == todos.Keys && done !! rest
        invariant |r| == |done| && Distinct(r)
        invariant forall i :: 0 <= i < |r| ==> r[i].id in done && todos[r[i].id] == r[i]
        invariant forall k :: k in done ==> todos[k] in r
        decreases rest
      {
        Inhabited(rest);
        var k :| k in rest;
        r := r + [todos[k]];
        rest := rest - {k};
        done := done + {k};
      }
      forall t | t in todos.Values ensures t in r {
        StoredUnderSomeKey(todos, t);
        var k :| k in todos && todos[k] == t;
      }
    }

    /** The record stored under `id`, or `TodoNotFound`. */
    method GetTodoByID(id: int) returns (r: Result<Todo>)
      requires Valid()
      ensures r.Ok? <==> id in todos
      ensures r.Ok? ==> r.value == todos[id] && r.value.id == id
      ensures r.Err? ==> r.error == TodoNotFound
    {
      if id !in todos {
        return Err(TodoNotFound);
      }
      return Ok(todos[id]);
    }

    /** Stores a new record built from `req` at instant `now` under the next
        id, which was never handed out before, and advances the counter.
        Never fails; nothing in `req` is checked. */
    method CreateTodo(req: TodoRequest, now: Time) returns (t: Todo)
      requires Valid() && clock <= now
      modifies this
      ensures Valid()
      ensures t.id == old(nextID) && t.id !in old(issued)
      ensures RequestOf(t) == req && t.createdAt == now && t.updatedAt == now
      ensures todos == old(todos)[t.id := t]
      ensures nextID == old(nextID) + 1 && issued == old(issued) + {t.id}
      ensures clock == now
    {
      t := Todo(nextID, req.title, req.description, req.completed, req.priority,
                req.category, req.dueDate, now, now);
      todos := todos[t.id := t];
      issued := issued + {t.id};
      nextID := nextID + 1;
      clock := now;
    }

    /** Replaces the mutable fields of the record under `id` from `req`,
        or fails with `TodoNotFound` and changes nothing. An update never
        moves the update time backwards. */
    method UpdateTodo(id: int, req: TodoRequest, now: Time) returns (r: Result<Todo>)
      requires Valid() && clock <= now
      modifies this
      ensures Valid()
      ensures r.Err? <==> id !in old(todos)
      ensures r.Err? ==> r.error == TodoNotFound && todos == old(todos) && clock == old(clock)
      ensures r.Ok? ==> r.value == FromRequest(old(todos)[id], req, now) && todos == old(todos)[id := r.value]
      ensures r.Ok? ==> old(todos)[id].updatedAt <= r.value.updatedAt && clock == now
      ensures r.Ok? ==> r.value.createdAt <= r.value.updatedAt
      ensures nextID == old(nextID) && issued == old(issued)
    {
      if id !in todos {
        return Err(TodoNotFound);
      }
      var t := FromRequest(todos[id], req, now);
      todos := todos[id := t];
      clock := now;
      return Ok(t);
    }

    /** Removes the record under `id`, or fails with `TodoNotFound`. The
        counter is not touched, so the id is never handed out again. */
    method DeleteTodo(id: int) returns (r: Result<()>)
      requires Valid()
      modifies this
      ensures Valid()
      ensures r.Err? <==> id !in old(todos)
      ensures r.Err? ==> r.error == TodoNotFound
      ensures todos == old(todos) - {id}
      ensures nextID == old(nextID) && issued == old(issued) && clock == old(clock)
    {
      if id !in todos {
        return Err(TodoNotFound);
      }
      todos := todos - {id};
      return Ok(());
    }

    /** The records meeting all of the given criteria (an empty query or
        category, or no completion filter, does not restrict), highest
        priority first and newest first among equal priorities. */
    method SearchTodos(query: string, category: string, completed: Option<bool>) returns (r: seq<Todo>)
      requires Valid()
      ensures Distinct(r)
      ensures forall t :: t in r <==> t in todos.Values && Selected(t, query, category, completed)
      ensures SortedBy(PriorityThenNewest, r)
    {
      var found: seq<Todo> := [];
      var rest := todos.Keys;
      ghost var done: set<int> := {};
      while rest != {}
        invariant done + rest == todos.Keys && done !! rest
        invariant Distinct(found)
        invariant forall i :: 0 <= i < |found| ==> found[i].id in done && todos[found[i].id] == found[i]
        invariant forall i :: 0 <= i < |found| ==> Selected(found[i], query, category, completed)
        invariant forall k :: k in done && Selected(todos[k], query, category, completed) ==> todos[k] in found
        decreases rest
      {
        Inhabited(rest);
        var k :| k in rest;
        var t := todos[k];
        var matches := true;
        if query != [] {
          matches := matches && (Contains(t.title, query) || Contains(t.description, query));
        }
        if category != [] {
          matches := matches && t.category == category;
        }
        if completed.Some? {
          matches := matches && t.completed == completed.value;
        }
        if matches {
          found := found + [t];
        }
        rest := rest - {k};
        done := done + {k};
      }
      forall t | t in todos.Values && Selected(t, query, category, completed) ensures t in found {
        StoredUnderSomeKey(todos, t);
        var k :| k in todos && todos[k] == t;
      }
      r := Sort(PriorityThenNewest, found);
      PermutationKeepsDistinct(found, r);
      assert forall t :: t in r <==> t in multiset(found);
    }

    /** The aggregate counts at instant `now`. */
    method GetStats(now: Time) returns (st: Stats)
      requires Valid()
      ensures st.total == |todos| && Tallies(st, todos, todos.Keys, now)
      ensures st.completed + st.pending == st.total
      ensures st.overdue <= st.pending
      ensures Sum(st.byPriority) == st.total
      ensures [] !in st.byCategory
      ensures Sum(st.byCategory) == |CategorizedKeys(todos, todos.Keys)|
    {
      st := Stats(|todos|, 0, 0, 0, map[], map[]);
      var rest := todos.Keys;
      ghost var done: set<int> := {};
      NothingTallied(st, todos, now);
      while rest != {}
        invariant done + rest == todos.Keys && done !! rest
        invariant st.total == |todos|
        invariant Tallies(st, todos, done, now)
        decreases rest
      {
        Inhabited(rest);
        var k :| k in rest;
        CountStep(st, todos, done, k, now);
        st := Count(st, todos[k], now);
        rest := rest - {k};
        done := done + {k};
      }
      assert done == todos.Keys;
    }
  }

  // ---------------------------------------------------------------------
  // Clients of the store

  /** Marking a todo completed is a lookup followed by an update that
      resends every field with `completed` set: it fails with `TodoNotFound`
      and changes nothing when the id is absent, and otherwise changes only
      the completion flag and the update time of that one record. */
  method CompleteTodo(s: MemoryStore, id: int, now: Time) returns (r: Result<Todo>)
    requires s.Valid() && s.clock <= now
    modifies s
    ensures s.Valid()
    ensures r.Err? <==> id !in old(s.todos)
    ensures r.Err? ==> r.error == TodoNotFound && s.todos == old(s.todos)
    ensures r.Ok? ==> r.value == old(s.todos)[id].(completed := true, updatedAt := now)
    ensures r.Ok? ==> s.todos == old(s.todos)[id := r.value]
    ensures s.nextID == old(s.nextID)
  {
    var found := s.GetTodoByID(id);
    if found.Err? {
      return Err(found.error);
    }
    var t := found.value;
    var req := TodoRequest(t.title, t.description, true, t.priority, t.category, t.dueDate);
    r := s.UpdateTodo(id, req, now);
  }

  /** Deleting the same id twice: whatever the first call did, the second
      fails with `TodoNotFound`. */
  method DeleteTwice(s: MemoryStore, id: int) returns (first: Result<()>, second: Result<()>)
    requires s.Valid()
    modifies s
    ensures s.Valid()
    ensures first.Ok? <==> id in old(s.todos)
    ensures second == Err(TodoNotFound)
    ensures s.todos == old(s.todos) - {id} && s.nextID == old(s.nextID)
  {
    first := s.DeleteTodo(id);
    second := s.DeleteTodo(id);
  }

  /** A new store hands out id 4 first, and ids keep growing across
      deletions: a record created after another is deleted never gets the
      deleted one's id. */
  method FreshIds(now: Time, a: TodoRequest, b: TodoRequest) returns (first: Todo, second: Todo)
    ensures first.id == 4 && second.id == 5
  {
    var s := new MemoryStore(now);
    first := s.CreateTodo(a, now);
    var _ := s.DeleteTodo(first.id);
    second := s.CreateTodo(b, now);
  }
}
