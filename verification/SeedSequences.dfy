/** Numbering seeded messages after the ones that are there (apps/web/scripts/seed-dev-time.ts:16-44). */
module SeedSequences {
  import opened Sequences
  import opened Sorting

  datatype SeedMessage = SeedMessage(id: string, key: string, conversationId: string, createdAt: int)

  datatype Sequenced = Sequenced(id: string, conversationId: string, sequence: int)

  datatype Assignment = Assignment(id: string, sequence: int)

  /* Ordering. */

  /** By conversation, then by time, then by key; `compare` orders strings. */
  predicate SeedLe(compare: (string, string) -> int, a: SeedMessage, b: SeedMessage) {
    var conversations := compare(a.conversationId, b.conversationId);
    if conversations != 0 then conversations < 0
    else if a.createdAt != b.createdAt then a.createdAt < b.createdAt
    else compare(a.key, b.key) <= 0
  }

  function SeedOrder(compare: (string, string) -> int): (SeedMessage, SeedMessage) -> bool {
    (a, b) => SeedLe(compare, a, b)
  }

  /** Signs are opposite, and what compares equal or smaller does so through a third. */
  ghost predicate IsLocaleCompare(compare: (string, string) -> int) {
    && (forall x :: compare(x, x) == 0)
    && (forall x, y :: compare(x, y) < 0 <==> compare(y, x) > 0)
    && (forall x, y, z :: compare(x, y) <= 0 && compare(y, z) <= 0 ==> compare(x, z) <= 0)
  }

  function OrderSeedMessages(compare: (string, string) -> int, messages: seq<SeedMessage>): seq<SeedMessage> {
    StableSort(SeedOrder(compare), messages)
  }

  lemma SeedOrderIsTotalPreorder(compare: (string, string) -> int)
    requires IsLocaleCompare(compare)
    ensures IsTotalPreorder(SeedOrder(compare))
  {
    var le := SeedOrder(compare);
    forall a, b
      ensures le(a, b) || le(b, a)
    {
      assert compare(a.conversationId, b.conversationId) < 0 <==> compare(b.conversationId, a.conversationId) > 0;
      assert compare(b.conversationId, a.conversationId) < 0 <==> compare(a.conversationId, b.conversationId) > 0;
      assert compare(a.key, b.key) < 0 <==> compare(b.key, a.key) > 0;
      assert compare(b.key, a.key) < 0 <==> compare(a.key, b.key) > 0;
    }
    forall a, b, c | le(a, b) && le(b, c)
      ensures le(a, c)
    {
      SeedLeIsTransitive(compare, a, b, c);
    }
  }

  lemma ComparesThrough(compare: (string, string) -> int, x: string, y: string, z: string)
    requires IsLocaleCompare(compare) && compare(x, y) <= 0 && compare(y, z) <= 0
    ensures compare(x, z) <= 0
    ensures compare(x, z) == 0 <==> compare(x, y) == 0 && compare(y, z) == 0
  {
    assert compare(y, x) < 0 <==> compare(x, y) > 0;
    assert compare(x, y) < 0 <==> compare(y, x) > 0;
    assert compare(z, y) < 0 <==> compare(y, z) > 0;
    assert compare(y, z) < 0 <==> compare(z, y) > 0;
    assert compare(z, x) < 0 <==> compare(x, z) > 0;
    assert compare(x, z) < 0 <==> compare(z, x) > 0;
    if compare(x, z) == 0 {
      assert compare(y, z) <= 0 && compare(z, x) <= 0 ==> compare(y, x) <= 0;
      assert compare(z, x) <= 0 && compare(x, y) <= 0 ==> compare(z, y) <= 0;
    }
    if compare(x, y) == 0 && compare(y, z) == 0 {
      assert compare(z, y) <= 0 && compare(y, x) <= 0 ==> compare(z, x) <= 0;
    }
  }

  lemma SeedLeIsTransitive(compare: (string, string) -> int, a: SeedMessage, b: SeedMessage, c: SeedMessage)
    requires IsLocaleCompare(compare) && SeedLe(compare, a, b) && SeedLe(compare, b, c)
    ensures SeedLe(compare, a, c)
  {
    ComparesThrough(compare, a.conversationId, b.conversationId, c.conversationId);
    if a.createdAt == b.createdAt == c.createdAt && compare(a.key, b.key) <= 0 && compare(b.key, c.key) <= 0 {
      ComparesThrough(compare, a.key, b.key, c.key);
    }
  }

  /* Numbering. */

  function Max(a: int, b: int): int {
    if a >= b then a else b
  }

  /** The highest sequence number of a conversation, 0 if it has none. */
  function Highest(existing: seq<Sequenced>, conversationId: string): int {
    if existing == [] then 0
    else
      var rest, last := Highest(existing[..|existing| - 1], conversationId), existing[|existing| - 1];
      if last.conversationId == conversationId then Max(rest, last.sequence) else rest
  }

  lemma {:induction false} HighestIsHighest(existing: seq<Sequenced>, conversationId: string)
    ensures Highest(existing, conversationId) >= 0
    ensures forall e :: e in existing && e.conversationId == conversationId ==> e.sequence <= Highest(existing, conversationId)
    ensures Highest(existing, conversationId) == 0
            || exists e :: e in existing && e.conversationId == conversationId && e.sequence == Highest(existing, conversationId)
  {
    if existing != [] {
      HighestIsHighest(existing[..|existing| - 1], conversationId);
      assert existing == existing[..|existing| - 1] + [existing[|existing| - 1]];
    }
  }

  predicate IsNew(existing: seq<Sequenced>, m: SeedMessage) {
    forall e :: e in existing ==> e.id != m.id
  }

  /** The messages of one conversation that are not there yet, in order. */
  function Fresh(existing: seq<Sequenced>, messages: seq<SeedMessage>, conversationId: string): seq<SeedMessage> {
    if messages == [] then []
    else
      var init, last := messages[..|messages| - 1], messages[|messages| - 1];
      Fresh(existing, init, conversationId)
      + (if last.conversationId == conversationId && IsNew(existing, last) then [last] else [])
  }

  /** Each new message gets the number after all those before it in its conversation. */
  function Assigned(existing: seq<Sequenced>, messages: seq<SeedMessage>): seq<Assignment> {
    if messages == [] then []
    else
      var init, last := messages[..|messages| - 1], messages[|messages| - 1];
      Assigned(existing, init)
      + (if IsNew(existing, last) then
           [Assignment(last.id, Highest(existing, last.conversationId) + |Fresh(existing, messages, last.conversationId)|)]
         else [])
  }

  /** The number a conversation has come to, 0 if it has none. */
  function NumberOf(next: map<string, int>, conversationId: string): int {
    if conversationId in next then next[conversationId] else 0
  }

  ghost predicate AreHighest(next: map<string, int>, existing: seq<Sequenced>) {
    forall c :: NumberOf(next, c) == Highest(existing, c)
  }

  /** Behind the new ones of these messages. */
  ghost predicate AreNext(next: map<string, int>, existing: seq<Sequenced>, messages: seq<SeedMessage>) {
    forall c :: NumberOf(next, c) == Highest(existing, c) + |Fresh(existing, messages, c)|
  }

  lemma HighestOfMore(next: map<string, int>, existing: seq<Sequenced>, e: Sequenced)
    requires AreHighest(next, existing)
    ensures AreHighest(next[e.conversationId := Max(NumberOf(next, e.conversationId), e.sequence)], existing + [e])
  {
    var later := next[e.conversationId := Max(NumberOf(next, e.conversationId), e.sequence)];
    assert (existing + [e])[..|existing|] == existing;
    forall c
      ensures NumberOf(later, c) == Highest(existing + [e], c)
    {
      assert NumberOf(next, c) == Highest(existing, c);
    }
  }

  lemma FreshOfMore(existing: seq<Sequenced>, messages: seq<SeedMessage>, m: SeedMessage, c: string)
    ensures |Fresh(existing, messages + [m], c)| ==
            |Fresh(existing, messages, c)| + if m.conversationId == c && IsNew(existing, m) then 1 else 0
  {
    assert (messages + [m])[..|messages|] == messages;
  }

  lemma NextOfMore(next: map<string, int>, existing: seq<Sequenced>, messages: seq<SeedMessage>, m: SeedMessage)
    requires AreNext(next, existing, messages)
    ensures
      var later := if IsNew(existing, m) then next[m.conversationId := NumberOf(next, m.conversationId) + 1] else next;
      AreNext(later, existing, messages + [m])
  {
    var later := if IsNew(existing, m) then next[m.conversationId := NumberOf(next, m.conversationId) + 1] else next;
    forall c
      ensures NumberOf(later, c) == Highest(existing, c) + |Fresh(existing, messages + [m], c)|
    {
      FreshOfMore(existing, messages, m, c);
      assert NumberOf(next, c) == Highest(existing, c) + |Fresh(existing, messages, c)|;
    }
  }

  lemma AssignedOfMore(next: map<string, int>, existing: seq<Sequenced>, messages: seq<SeedMessage>, m: SeedMessage)
    requires AreNext(next, existing, messages)
    ensures Assigned(existing, messages + [m]) ==
            Assigned(existing, messages)
            + if IsNew(existing, m) then [Assignment(m.id, NumberOf(next, m.conversationId) + 1)] else []
  {
    FreshOfMore(existing, messages, m, m.conversationId);
    assert (messages + [m])[..|messages|] == messages;
  }

  /** The highest number of every conversation. */
  method FindHighest(existing: seq<Sequenced>) returns (next: map<string, int>)
    ensures AreHighest(next, existing)
  {
    next := map[];
    for i := 0 to |existing|
      invariant AreHighest(next, existing[..i])
    {
      var message := existing[i];
      HighestOfMore(next, existing[..i], message);
      assert existing[..i + 1] == existing[..i] + [message];
      var known := NumberOf(next, message.conversationId);
      next := next[message.conversationId := Max(known, message.sequence)];
    }
    assert existing[..|existing|] == existing;
  }

  method AssignMissingSeedSequences(ordered: seq<SeedMessage>, existing: seq<Sequenced>) returns (assignments: seq<Assignment>)
    ensures assignments == Assigned(existing, ordered)
  {
    var existingIds := set e | e in existing :: e.id;
    var nextByConversation := FindHighest(existing);
    assignments := [];
    for i := 0 to |ordered|
      invariant assignments == Assigned(existing, ordered[..i])
      invariant AreNext(nextByConversation, existing, ordered[..i])
    {
      var message := ordered[i];
      NextOfMore(nextByConversation, existing, ordered[..i], message);
      AssignedOfMore(nextByConversation, existing, ordered[..i], message);
      assert ordered[..i + 1] == ordered[..i] + [message];
      if message.id !in existingIds {
        var known := NumberOf(nextByConversation, message.conversationId);
        nextByConversation := nextByConversation[message.conversationId := known + 1];
        assignments := assignments + [Assignment(message.id, known + 1)];
      }
    }
    assert ordered[..|ordered|] == ordered;
  }

  /* What the numbers are. */

  lemma {:induction false} FreshMembers(existing: seq<Sequenced>, messages: seq<SeedMessage>, c: string)
    ensures forall m :: m in Fresh(existing, messages, c) <==> m in messages && m.conversationId == c && IsNew(existing, m)
  {
    if messages != [] {
      FreshMembers(existing, messages[..|messages| - 1], c);
      assert messages == messages[..|messages| - 1] + [messages[|messages| - 1]];
    }
  }

  lemma {:induction false} FreshIsSorted(
    le: (SeedMessage, SeedMessage) -> bool, existing: seq<Sequenced>, messages: seq<SeedMessage>, c: string)
    requires IsSorted(le, messages)
    ensures IsSorted(le, Fresh(existing, messages, c))
  {
    if messages != [] {
      var init, last := messages[..|messages| - 1], messages[|messages| - 1];
      FreshIsSorted(le, existing, init, c);
      FreshMembers(existing, init, c);
      var added := Fresh(existing, init, c);
      forall i | 0 <= i < |added|
        ensures le(added[i], last)
      {
        assert added[i] in init;
        var j :| 0 <= j < |init| && init[j] == added[i];
        assert messages[j] == added[i];
      }
    }
  }

  /** Of each conversation the k-th new message gets the k-th number after the highest. */
  lemma {:induction false} KthIsAssigned(existing: seq<Sequenced>, messages: seq<SeedMessage>, c: string, k: nat)
    requires k < |Fresh(existing, messages, c)|
    ensures Assignment(Fresh(existing, messages, c)[k].id, Highest(existing, c) + k + 1) in Assigned(existing, messages)
  {
    var init := messages[..|messages| - 1];
    if k < |Fresh(existing, init, c)| {
      KthIsAssigned(existing, init, c, k);
      assert Fresh(existing, messages, c)[k] == Fresh(existing, init, c)[k];
    }
  }

  lemma {:induction false} AssignedIsKth(existing: seq<Sequenced>, messages: seq<SeedMessage>, a: Assignment)
    returns (c: string, k: nat)
    requires a in Assigned(existing, messages)
    ensures IsKthOf(existing, messages, c, k, a)
  {
    var init, last := messages[..|messages| - 1], messages[|messages| - 1];
    if a in Assigned(existing, init) {
      c, k := AssignedIsKth(existing, init, a);
      assert Fresh(existing, messages, c)[k] == Fresh(existing, init, c)[k];
    } else {
      c, k := last.conversationId, |Fresh(existing, init, last.conversationId)|;
    }
  }

  ghost predicate IsKthOf(existing: seq<Sequenced>, messages: seq<SeedMessage>, c: string, k: int, a: Assignment) {
    && 0 <= k < |Fresh(existing, messages, c)|
    && a == Assignment(Fresh(existing, messages, c)[k].id, Highest(existing, c) + k + 1)
  }

  ghost predicate HasDistinctIds(messages: seq<SeedMessage>) {
    forall i, j :: 0 <= i < j < |messages| ==> messages[i].id != messages[j].id
  }

  lemma SortKeepsDistinctIds(compare: (string, string) -> int, messages: seq<SeedMessage>)
    requires HasDistinctIds(messages)
    ensures HasDistinctIds(OrderSeedMessages(compare, messages))
  {
    var ordered := OrderSeedMessages(compare, messages);
    assert IsDistinct(messages);
    SortPermutes(SeedOrder(compare), messages);
    PermutationIsDistinct(messages, ordered);
    SortKeepsElements(SeedOrder(compare), messages);
    forall i, j | 0 <= i < j < |ordered|
      ensures ordered[i].id != ordered[j].id
    {
      assert ordered[i] in messages && ordered[j] in messages;
    }
  }

  /** The number a message got, in its conversation. */
  ghost predicate IsNumbered(existing: seq<Sequenced>, messages: seq<SeedMessage>, m: SeedMessage, sequence: int) {
    m in messages && Assignment(m.id, sequence) in Assigned(existing, messages)
  }

  /** Sorted, the new messages of a conversation are in time order, each once. */
  lemma SeedsFollowTimeOrder(
    compare: (string, string) -> int, seeds: seq<SeedMessage>, existing: seq<Sequenced>, c: string)
    requires IsLocaleCompare(compare) && HasDistinctIds(seeds)
    ensures
      var added := Fresh(existing, OrderSeedMessages(compare, seeds), c);
      && (forall m :: m in added <==> m in seeds && m.conversationId == c && IsNew(existing, m))
      && (forall i, j :: 0 <= i < j < |added| ==> added[i] != added[j] && added[i].createdAt <= added[j].createdAt)
  {
    var ordered := OrderSeedMessages(compare, seeds);
    var added := Fresh(existing, ordered, c);
    SeedOrderIsTotalPreorder(compare);
    SortSorts(SeedOrder(compare), seeds);
    SortKeepsElements(SeedOrder(compare), seeds);
    SortKeepsDistinctIds(compare, seeds);
    FreshIsSorted(SeedOrder(compare), existing, ordered, c);
    FreshMembers(existing, ordered, c);
    FreshIsDistinct(existing, ordered, c);
    forall i, j | 0 <= i < j < |added|
      ensures added[i].createdAt <= added[j].createdAt
    {
      assert added[i] in added && added[j] in added;
      assert SeedOrder(compare)(added[i], added[j]) && compare(c, c) == 0;
    }
  }

  /**
   * Numbering then gives the k-th of them exactly the k-th number after the highest of its
   * conversation (0 if none): the numbers follow time order, without gap or collision.
   */
  lemma SeedsAreNumbered(
    compare: (string, string) -> int, seeds: seq<SeedMessage>, existing: seq<Sequenced>, c: string, k: nat, sequence: int)
    requires HasDistinctIds(seeds) && k < |Fresh(existing, OrderSeedMessages(compare, seeds), c)|
    ensures
      var ordered := OrderSeedMessages(compare, seeds);
      IsNumbered(existing, ordered, Fresh(existing, ordered, c)[k], sequence) <==>
      sequence == Highest(existing, c) + k + 1
  {
    SortKeepsDistinctIds(compare, seeds);
    KthIsNumbered(existing, OrderSeedMessages(compare, seeds), c, k, sequence);
  }

  lemma KthIsNumbered(existing: seq<Sequenced>, ordered: seq<SeedMessage>, c: string, k: nat, sequence: int)
    requires HasDistinctIds(ordered) && k < |Fresh(existing, ordered, c)|
    ensures IsNumbered(existing, ordered, Fresh(existing, ordered, c)[k], sequence) <==>
            sequence == Highest(existing, c) + k + 1
  {
    var m := Fresh(existing, ordered, c)[k];
    FreshMembers(existing, ordered, c);
    FreshIsDistinct(existing, ordered, c);
    KthIsAssigned(existing, ordered, c, k);
    if IsNumbered(existing, ordered, m, sequence) {
      var d, n := AssignedIsKth(existing, ordered, Assignment(m.id, sequence));
      FreshMembers(existing, ordered, d);
      SameIdSameMessage(ordered, Fresh(existing, ordered, d)[n], m);
    }
  }

  lemma SameIdSameMessage(messages: seq<SeedMessage>, m: SeedMessage, n: SeedMessage)
    requires HasDistinctIds(messages) && m in messages && n in messages
    ensures m.id == n.id ==> m == n
  {
  }

  lemma {:induction false} FreshIsDistinct(existing: seq<Sequenced>, messages: seq<SeedMessage>, c: string)
    requires HasDistinctIds(messages)
    ensures IsDistinct(Fresh(existing, messages, c))
  {
    if messages != [] {
      FreshIsDistinct(existing, messages[..|messages| - 1], c);
      FreshMembers(existing, messages[..|messages| - 1], c);
    }
  }

  /* Running it again. */

  /** The new rows that are stored for the assignments. */
  function NewRows(existing: seq<Sequenced>, messages: seq<SeedMessage>): seq<Sequenced> {
    if messages == [] then []
    else
      var init, last := messages[..|messages| - 1], messages[|messages| - 1];
      NewRows(existing, init)
      + (if IsNew(existing, last) then
           [Sequenced(last.id, last.conversationId,
                      Highest(existing, last.conversationId) + |Fresh(existing, messages, last.conversationId)|)]
         else [])
  }

  lemma {:induction false} NewRowsAreAssigned(existing: seq<Sequenced>, messages: seq<SeedMessage>)
    ensures |NewRows(existing, messages)| == |Assigned(existing, messages)|
    ensures forall i :: 0 <= i < |Assigned(existing, messages)| ==>
              && NewRows(existing, messages)[i].id == Assigned(existing, messages)[i].id
              && NewRows(existing, messages)[i].sequence == Assigned(existing, messages)[i].sequence
    ensures forall r :: r in NewRows(existing, messages) ==>
              r.sequence > Highest(existing, r.conversationId) >= 0
  {
    if messages != [] {
      NewRowsAreAssigned(existing, messages[..|messages| - 1]);
      HighestIsHighest(existing, messages[|messages| - 1].conversationId);
    }
  }

  lemma {:induction false} EveryNewMessageHasRow(existing: seq<Sequenced>, messages: seq<SeedMessage>, m: SeedMessage)
    returns (r: Sequenced)
    requires m in messages && IsNew(existing, m)
    ensures r in NewRows(existing, messages) && r.id == m.id && r.conversationId == m.conversationId
  {
    var init, last := messages[..|messages| - 1], messages[|messages| - 1];
    assert messages == init + [last];
    if m in init {
      r := EveryNewMessageHasRow(existing, init, m);
    } else {
      assert m == last;
      r := Sequenced(m.id, m.conversationId, Highest(existing, m.conversationId) + |Fresh(existing, messages, m.conversationId)|);
    }
  }

  /** A rerun over the merged messages has nothing to number, and no new number was in use. */
  lemma RerunAssignsNothing(existing: seq<Sequenced>, messages: seq<SeedMessage>)
    ensures Assigned(existing + NewRows(existing, messages), messages) == []
    ensures forall r, e :: r in NewRows(existing, messages) && e in existing && e.conversationId == r.conversationId ==>
              e.sequence < r.sequence
  {
    var merged := existing + NewRows(existing, messages);
    NewRowsAreAssigned(existing, messages);
    forall m | m in messages
      ensures !IsNew(merged, m)
    {
      if IsNew(existing, m) {
        var r := EveryNewMessageHasRow(existing, messages, m);
        assert r in merged;
      } else {
        var e :| e in existing && e.id == m.id;
        assert e in merged;
      }
    }
    NothingNewNothingAssigned(merged, messages);
    forall r, e | r in NewRows(existing, messages) && e in existing && e.conversationId == r.conversationId
      ensures e.sequence < r.sequence
    {
      HighestIsHighest(existing, r.conversationId);
    }
  }

  lemma {:induction false} NothingNewNothingAssigned(existing: seq<Sequenced>, messages: seq<SeedMessage>)
    requires forall m :: m in messages ==> !IsNew(existing, m)
    ensures Assigned(existing, messages) == []
  {
    if messages != [] {
      NothingNewNothingAssigned(existing, messages[..|messages| - 1]);
    }
  }
}
