/**
 * `MemStorage`: the in-memory implementation of the storage interface. Each
 * table is a JavaScript `Map` from id to record; a `Map` iterates in insertion
 * order, so each table is modelled as a Dafny `map` together with the
 * sequence of its keys in insertion order. `find` and `filter` over
 * `Array.from(map.values())` walk that sequence.
 */
module MemStore {
  import opened Records

  /** Each key listed once, and exactly the keys of the table. */
  ghost predicate IsOrderOf<T>(order: seq<string>, table: map<string, T>)
  {
    && (forall i, j :: 0 <= i < j < |order| ==> order[i] != order[j])
    && (forall k :: k in order <==> k in table)
  }

  /** `Array.from(table.values()).filter(p)`, walking the keys in `order`. */
  function Select<T>(order: seq<string>, table: map<string, T>, p: T -> bool): (r: seq<T>)
    requires forall k :: k in order ==> k in table
    ensures |r| <= |order|
    ensures forall x :: x in r ==> p(x) && exists k :: k in order && table[k] == x
    ensures forall k :: k in order && p(table[k]) ==> table[k] in r
  {
    if order == [] then []
    else
      var rest := Select(order[1..], table, p);
      var x := table[order[0]];
      if p(x) then [x] + rest else rest
  }

  /** `Array.from(table.values())`: the records in the insertion order `order`. */
  function Values<T>(order: seq<string>, table: map<string, T>): (r: seq<T>)
    requires forall k :: k in order ==> k in table
    ensures |r| == |order| && forall i :: 0 <= i < |r| ==> r[i] == table[order[i]]
  {
    if order == [] then [] else [table[order[0]]] + Values(order[1..], table)
  }

  /** A key inserted last adds its record at the end of the `filter`, when it passes `p`: the order is the insertion order. */
  lemma {:induction false} SelectSnoc<T>(order: seq<string>, table: map<string, T>, p: T -> bool, k: string)
    requires forall k' :: k' in order ==> k' in table
    requires k in table
    ensures Select(order + [k], table, p) == Select(order, table, p) + (if p(table[k]) then [table[k]] else [])
  {
    if order != [] {
      assert (order + [k])[1..] == order[1..] + [k];
      SelectSnoc(order[1..], table, p, k);
    }
  }

  /** The `filter` holds each record that passes `p` as often as the table's values do, and no other. */
  lemma {:induction false} SelectCount<T>(order: seq<string>, table: map<string, T>, p: T -> bool)
    requires forall k :: k in order ==> k in table
    ensures forall x :: multiset(Select(order, table, p))[x] == if p(x) then multiset(Values(order, table))[x] else 0
  {
    if order != [] {
      SelectCount(order[1..], table, p);
      assert Values(order, table) == [table[order[0]]] + Values(order[1..], table);
    }
  }

  /** The keys, among `order`, whose record passes `p`. */
  ghost function PassingKeys<T>(order: seq<string>, table: map<string, T>, p: T -> bool): set<string>
    requires forall k :: k in order ==> k in table
  {
    set k | k in order && p(table[k])
  }

  lemma PassingKeysCons<T>(order: seq<string>, table: map<string, T>, p: T -> bool)
    requires order != [] && forall k :: k in order ==> k in table
    ensures PassingKeys(order, table, p) ==
            PassingKeys(order[1..], table, p) + (if p(table[order[0]]) then {order[0]} else {})
  {
    assert forall k :: k in order <==> k == order[0] || k in order[1..];
  }

  lemma DistinctTail(order: seq<string>)
    requires order != [] && forall i, j :: 0 <= i < j < |order| ==> order[i] != order[j]
    ensures forall i, j :: 0 <= i < j < |order[1..]| ==> order[1..][i] != order[1..][j]
    ensures order[0] !in order[1..]
  {
    forall i, j | 0 <= i < j < |order[1..]| ensures order[1..][i] != order[1..][j] {
      assert order[1..][i] == order[i + 1] && order[1..][j] == order[j + 1];
    }
    forall i | 0 <= i < |order[1..]| ensures order[1..][i] != order[0] {
      assert order[1..][i] == order[i + 1];
    }
  }

  /** Over distinct keys, the `filter` has one record per key whose record passes `p`. */
  lemma {:induction false} SelectCountsKeys<T>(order: seq<string>, table: map<string, T>, p: T -> bool)
    requires forall i, j :: 0 <= i < j < |order| ==> order[i] != order[j]
    requires forall k :: k in order ==> k in table
    ensures |Select(order, table, p)| == |PassingKeys(order, table, p)|
  {
    if order == [] {
      assert PassingKeys(order, table, p) == {};
    } else {
      DistinctTail(order);
      SelectCountsKeys(order[1..], table, p);
      PassingKeysCons(order, table, p);
    }
  }

  /** `Array.from(table.values()).find(p)`: the first record, in insertion order, that satisfies `p`. */
  function Find<T>(order: seq<string>, table: map<string, T>, p: T -> bool): (r: Option<T>)
    requires forall k :: k in order ==> k in table
    ensures r.None? <==> forall k :: k in order ==> !p(table[k])
    ensures r.Some? ==> p(r.value) && exists k :: k in order && table[k] == r.value
    ensures r.Some? ==> Select(order, table, p) != [] && r.value == Select(order, table, p)[0]
  {
    if order == [] then None
    else if p(table[order[0]]) then Some(table[order[0]])
    else Find(order[1..], table, p)
  }

  /** The position `i` of the record `find` returns. */
  lemma {:induction false} FindIndex<T>(order: seq<string>, table: map<string, T>, p: T -> bool) returns (i: nat)
    requires forall k :: k in order ==> k in table
    requires Find(order, table, p).Some?
    ensures i < |order| && table[order[i]] == Find(order, table, p).value
    ensures forall j :: 0 <= j < i ==> !p(table[order[j]])
  {
    if p(table[order[0]]) {
      i := 0;
    } else {
      assert Find(order, table, p) == Find(order[1..], table, p);
      var k := FindIndex(order[1..], table, p);
      i := k + 1;
      assert order[i] == order[1..][k];
      forall j | 0 <= j < i ensures !p(table[order[j]]) {
        if j > 0 {
          assert order[j] == order[1..][j - 1];
        }
      }
    }
  }

  /** The record `find` returns is the first match in insertion order. */
  lemma FindIsFirst<T>(order: seq<string>, table: map<string, T>, p: T -> bool)
    requires forall k :: k in order ==> k in table
    requires Find(order, table, p).Some?
    ensures exists i :: 0 <= i < |order| && table[order[i]] == Find(order, table, p).value &&
                        forall j :: 0 <= j < i ==> !p(table[order[j]])
  {
    var i := FindIndex(order, table, p);
  }

  const EvaluationNotSupported: string := "Evaluation methods not supported in MemStorage"

  /** The evaluation methods of the storage interface, each a stub in `MemStorage`. */
  datatype EvaluationMethod =
    | CreateEvaluationTestCase
    | GetEvaluationTestCase
    | CreateAgentResponse
    | GetAgentResponse
    | GetAgentResponseById
    | CreateHumanGrade
    | GetHumanGradesByResponse
    | GetEvaluationStatsByUser
    | GetRecentGradesByUser

  /** The error a stub throws. */
  datatype Thrown = Thrown(message: string)

  class MemStorage {
    var users: map<string, User>
    var userOrder: seq<string>
    var chatSessions: map<string, ChatSession>
    var chatSessionOrder: seq<string>
    var comparisons: map<string, Comparison>
    var comparisonOrder: seq<string>

    ghost predicate Valid()
      reads this
    {
      && IsOrderOf(userOrder, users)
      && IsOrderOf(chatSessionOrder, chatSessions)
      && IsOrderOf(comparisonOrder, comparisons)
    }

    constructor ()
      ensures Valid()
      ensures users == map[] && chatSessions == map[] && comparisons == map[]
      ensures userOrder == [] && chatSessionOrder == [] && comparisonOrder == []
    {
      users, userOrder := map[], [];
      chatSessions, chatSessionOrder := map[], [];
      comparisons, comparisonOrder := map[], [];
    }

    // ---- users ----

    function GetUser(id: string): (r: Option<User>)
      reads this
      ensures r.Some? <==> id in users
      ensures r.Some? ==> r.value == users[id]
    {
      if id in users then Some(users[id]) else None
    }

    function GetUserByUsername(username: string): (r: Option<User>)
      reads this
      requires Valid()
      ensures r.Some? ==> r.value in users.Values && r.value.username == username
      ensures r.None? <==> forall id :: id in users ==> users[id].username != username
      ensures r.Some? ==> exists i :: 0 <= i < |userOrder| && users[userOrder[i]] == r.value &&
                                      forall j :: 0 <= j < i ==> users[userOrder[j]].username != username
    {
      var named := (u: User) => u.username == username;
      if Find(userOrder, users, named).Some? then
        FindIsFirst(userOrder, users, named);
        Find(userOrder, users, named)
      else
        None
    }

    /** `createUser` with the id `randomUUID()` would draw supplied by the caller. */
    method CreateUser(insert: InsertUser, id: string) returns (user: User)
      requires Valid()
      requires id !in users
      modifies this
      ensures Valid()
      ensures user == User(id, insert.username, insert.password)
      ensures users == old(users)[id := user] && userOrder == old(userOrder) + [id]
      ensures GetUser(id) == Some(user)
      ensures chatSessions == old(chatSessions) && chatSessionOrder == old(chatSessionOrder)
      ensures comparisons == old(comparisons) && comparisonOrder == old(comparisonOrder)
    {
      user := User(id, insert.username, insert.password);
      users := users[id := user];
      userOrder := userOrder + [id];
    }

    // ---- chat sessions ----

    function GetChatSession(id: string): (r: Option<ChatSession>)
      reads this
      ensures r.Some? <==> id in chatSessions
      ensures r.Some? ==> r.value == chatSessions[id]
    {
      if id in chatSessions then Some(chatSessions[id]) else None
    }

    function GetChatSessionsByUser(userId: string): (r: seq<ChatSession>)
      reads this
      requires Valid()
      ensures forall s :: s in r ==> s.userId == userId && s in chatSessions.Values
      ensures forall id :: id in chatSessions && chatSessions[id].userId == userId ==> chatSessions[id] in r
      ensures |r| == |set id | id in chatSessions && chatSessions[id].userId == userId|
    {
      var mine := (s: ChatSession) => s.userId == userId;
      SelectCountsKeys(chatSessionOrder, chatSessions, mine);
      assert PassingKeys(chatSessionOrder, chatSessions, mine) ==
             (set id | id in chatSessions && chatSessions[id].userId == userId);
      Select(chatSessionOrder, chatSessions, mine)
    }

    /** `createChatSession`: the new id and `new Date()` are supplied by the caller. */
    method CreateChatSession(insert: InsertChatSession, id: string, now: int) returns (session: ChatSession)
      requires Valid()
      requires id !in chatSessions
      modifies this
      ensures Valid()
      ensures session == ChatSession(id, insert.userId, insert.prompt, insert.modelAResponse,
                                     insert.modelBResponse, insert.modelAName, insert.modelBName, Some(now))
      ensures chatSessions == old(chatSessions)[id := session]
      ensures chatSessionOrder == old(chatSessionOrder) + [id]
      ensures GetChatSession(id) == Some(session)
      ensures users == old(users) && userOrder == old(userOrder)
      ensures comparisons == old(comparisons) && comparisonOrder == old(comparisonOrder)
    {
      session := ChatSession(id, insert.userId, insert.prompt, insert.modelAResponse,
                             insert.modelBResponse, insert.modelAName, insert.modelBName, Some(now));
      chatSessions := chatSessions[id := session];
      chatSessionOrder := chatSessionOrder + [id];
    }

    /**
     * `updateChatSession`: an absent id gives `undefined` and changes nothing;
     * otherwise the overlay is stored under the same key (a `Map.set` on an
     * existing key keeps its place in the insertion order).
     */
    method UpdateChatSession(id: string, updates: ChatSessionPatch) returns (r: Option<ChatSession>)
      requires Valid()
      modifies this
      ensures Valid()
      ensures id !in old(chatSessions) ==> r.None? && chatSessions == old(chatSessions)
      ensures id in old(chatSessions) ==>
                && r == Some(Overlay(old(chatSessions)[id], updates))
                && chatSessions == old(chatSessions)[id := r.value]
      ensures forall k :: k in old(chatSessions) && k != id ==> k in chatSessions && chatSessions[k] == old(chatSessions)[k]
      ensures chatSessionOrder == old(chatSessionOrder)
      ensures users == old(users) && userOrder == old(userOrder)
      ensures comparisons == old(comparisons) && comparisonOrder == old(comparisonOrder)
    {
      var existing := GetChatSession(id);
      if existing.None? {
        return None;
      }
      var updated := Overlay(existing.value, updates);
      chatSessions := chatSessions[id := updated];
      return Some(updated);
    }

    // ---- comparisons ----

    /** `createComparison`: the new id and `new Date()` are supplied by the caller. */
    method CreateComparison(insert: InsertComparison, id: string, now: int) returns (c: Comparison)
      requires Valid()
      requires id !in comparisons
      modifies this
      ensures Valid()
      ensures c == Comparison(id, insert.chatSessionId, insert.winner, insert.modelARating,
                              insert.modelBRating, insert.userId, Some(now))
      ensures comparisons == old(comparisons)[id := c]
      ensures comparisonOrder == old(comparisonOrder) + [id]
      ensures c in GetComparisonsByUser(insert.userId)
      ensures users == old(users) && userOrder == old(userOrder)
      ensures chatSessions == old(chatSessions) && chatSessionOrder == old(chatSessionOrder)
    {
      c := Comparison(id, insert.chatSessionId, insert.winner, insert.modelARating,
                      insert.modelBRating, insert.userId, Some(now));
      comparisons := comparisons[id := c];
      comparisonOrder := comparisonOrder + [id];
      assert id in comparisons && comparisons[id].userId == insert.userId;
    }

    function GetComparisonsByUser(userId: string): (r: seq<Comparison>)
      reads this
      requires Valid()
      ensures forall c :: c in r ==> c.userId == userId && c in comparisons.Values
      ensures forall id :: id in comparisons && comparisons[id].userId == userId ==> comparisons[id] in r
      ensures |r| == |set id | id in comparisons && comparisons[id].userId == userId|
    {
      var mine := (c: Comparison) => c.userId == userId;
      SelectCountsKeys(comparisonOrder, comparisons, mine);
      assert PassingKeys(comparisonOrder, comparisons, mine) ==
             (set id | id in comparisons && comparisons[id].userId == userId);
      Select(comparisonOrder, comparisons, mine)
    }

    function GetComparisonsByChatSession(chatSessionId: string): (r: seq<Comparison>)
      reads this
      requires Valid()
      ensures forall c :: c in r ==> c.chatSessionId == Some(chatSessionId) && c in comparisons.Values
      ensures forall id :: id in comparisons && comparisons[id].chatSessionId == Some(chatSessionId) ==>
                comparisons[id] in r
      ensures |r| == |set id | id in comparisons && comparisons[id].chatSessionId == Some(chatSessionId)|
    {
      var linked := (c: Comparison) => c.chatSessionId == Some(chatSessionId);
      SelectCountsKeys(comparisonOrder, comparisons, linked);
      assert PassingKeys(comparisonOrder, comparisons, linked) ==
             (set id | id in comparisons && comparisons[id].chatSessionId == Some(chatSessionId));
      Select(comparisonOrder, comparisons, linked)
    }

    // ---- evaluation stubs ----

    /** Every evaluation method of `MemStorage` throws, whatever its arguments, and changes nothing. */
    method Evaluation(m: EvaluationMethod) returns (thrown: Thrown)
      ensures thrown.message == EvaluationNotSupported
    {
      thrown := Thrown(EvaluationNotSupported);
    }
  }
}
