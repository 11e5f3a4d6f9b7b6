/**
 internal/swarm/pagination.go: listing everything by ID prefixes.

 The Docker API is an oracle that may order its answers differently every time and
 may fail at any request; it is accurate when each answer holds exactly the items
 whose ID starts with the prefix asked for.
 */
module Pagination {
  import opened Wrappers

  datatype ListError = ListError(retryable: bool)

  type Reply<!T> = (nat, string) -> Result<seq<T>, ListError>

  /** `items` lists each member of `members` once, in some order. */
  ghost predicate Exactly<T(!new)>(items: seq<T>, members: set<T>) {
    && (forall x :: x in items <==> x in members)
    && (forall i, j | 0 <= i < j < |items| :: items[i] != items[j])
  }

  ghost function Page<T>(all: set<T>, id: T -> string, prefix: string): set<T> {
    set x | x in all && prefix <= id(x)
  }

  ghost predicate Accurate<T(!new)>(reply: Reply<T>, all: set<T>, id: T -> string) {
    forall k, prefix | reply(k, prefix).Ok? :: Exactly(reply(k, prefix).value, Page(all, id, prefix))
  }

  ghost predicate DistinctIDs<T(!new)>(all: set<T>, id: T -> string) {
    forall x, y | x in all && y in all && id(x) == id(y) :: x == y
  }

  lemma ExactlyInit<T(!new)>(items: seq<T>, members: set<T>)
    requires Exactly(items, members) && items != []
    ensures items[|items| - 1] in members
    ensures Exactly(items[..|items| - 1], members - {items[|items| - 1]})
  {
    var init, last := items[..|items| - 1], items[|items| - 1];
    assert items == init + [last];
    assert last in items;
  }

  lemma {:induction false} ExactlyHasSize<T(!new)>(items: seq<T>, members: set<T>)
    requires Exactly(items, members)
    ensures |items| == |members|
  {
    if items == [] {
      assert members == {};
    } else {
      ExactlyInit(items, members);
      ExactlyHasSize(items[..|items| - 1], members - {items[|items| - 1]});
    }
  }

  /** withRetry: at most four requests for one query, stopping at the first answer or lasting error. */
  class Lister<T(!new)> {
    const reply: Reply<T>
    var requests: nat
    ghost var queries: seq<string>

    constructor (reply: Reply<T>)
      ensures this.reply == reply && requests == 0 && queries == []
    {
      this.reply := reply;
      requests := 0;
      queries := [];
    }

    /** What the last request was answered with. */
    ghost function LastReply(): Result<seq<T>, ListError>
      reads this
    {
      if requests == 0 || queries == [] then Ok([]) else reply(requests - 1, queries[|queries| - 1])
    }

    method List(prefix: string) returns (r: Result<seq<T>, ListError>)
      modifies this
      ensures queries == old(queries) + [prefix]
      ensures old(requests) < requests <= old(requests) + 4
      ensures r == reply(requests - 1, prefix)
      ensures forall k | old(requests) <= k < requests - 1 :: reply(k, prefix).Err? && reply(k, prefix).error.retryable
      ensures r.Err? && r.error.retryable ==> requests == old(requests) + 4
    {
      queries := queries + [prefix];
      var attempt := 1;
      while true
        invariant 1 <= attempt <= 4
        invariant queries == old(queries) + [prefix]
        invariant requests == old(requests) + attempt - 1
        invariant forall k | old(requests) <= k < requests :: reply(k, prefix).Err? && reply(k, prefix).error.retryable
        decreases 4 - attempt
      {
        r := reply(requests, prefix);
        requests := requests + 1;
        if r.Ok? || !r.error.retryable || attempt == 4 {
          return;
        }
        attempt := attempt + 1;
      }
    }
  }

  /** The `seen` map that appendUnique shares with its callers. */
  class Seen {
    var ids: set<string>

    constructor ()
      ensures ids == {}
    {
      ids := {};
    }
  }

  function IDs<T>(items: seq<T>, id: T -> string): set<string> {
    set i | 0 <= i < |items| :: id(items[i])
  }

  /** The items appendUnique keeps: the first with each non-empty ID not seen before. */
  function Kept<T>(items: seq<T>, seen: set<string>, id: T -> string): seq<T> {
    if items == [] then []
    else
      var last, init := items[|items| - 1], items[..|items| - 1];
      if id(last) == "" || id(last) in seen || id(last) in IDs(init, id) then Kept(init, seen, id)
      else Kept(init, seen, id) + [last]
  }

  /** Item i is the first in the list with its ID, and that ID is given and was not seen before. */
  ghost predicate FirstSeen<T>(items: seq<T>, i: int, seen: set<string>, id: T -> string) {
    && 0 <= i < |items| && id(items[i]) != "" && id(items[i]) !in seen
    && forall j | 0 <= j < i :: id(items[j]) != id(items[i])
  }

  /** Exactly those items are kept, and no two of them share an ID. */
  lemma {:induction false} KeptAreFirst<T(!new)>(items: seq<T>, seen: set<string>, id: T -> string)
    ensures forall x :: x in Kept(items, seen, id) <==> exists i :: FirstSeen(items, i, seen, id) && items[i] == x
    ensures forall j, k | 0 <= j < k < |Kept(items, seen, id)| ::
              id(Kept(items, seen, id)[j]) != id(Kept(items, seen, id)[k])
  {
    if items != [] {
      var n := |items| - 1;
      var init := items[..n];
      KeptAreFirst(init, seen, id);
      assert forall i | 0 <= i < n :: FirstSeen(items, i, seen, id) <==> FirstSeen(init, i, seen, id);
      assert forall i | 0 <= i < n :: id(items[i]) in IDs(init, id) by {
        assert forall i | 0 <= i < n :: items[i] == init[i];
      }
      assert FirstSeen(items, n, seen, id) <==>
          id(items[n]) != "" && id(items[n]) !in seen && id(items[n]) !in IDs(init, id);
      forall x ensures x in Kept(items, seen, id) <==> exists i :: FirstSeen(items, i, seen, id) && items[i] == x {
        if i :| FirstSeen(init, i, seen, id) && init[i] == x {
          assert FirstSeen(items, i, seen, id);
        }
      }
      KeptIDsBefore(init, seen, id);
    }
  }

  lemma {:induction false} KeptIDsBefore<T>(items: seq<T>, seen: set<string>, id: T -> string)
    ensures forall k | 0 <= k < |Kept(items, seen, id)| :: id(Kept(items, seen, id)[k]) in IDs(items, id)
  {
    if items != [] {
      var n := |items| - 1;
      KeptIDsBefore(items[..n], seen, id);
      assert id(items[n]) in IDs(items, id) && IDs(items[..n], id) <= IDs(items, id) by {
        assert forall i | 0 <= i < n :: items[..n][i] == items[i];
      }
    }
  }

  method AppendUnique<T>(dst: seq<T>, items: seq<T>, seen: Seen, id: T -> string) returns (r: seq<T>)
    modifies seen
    ensures r == dst + Kept(items, old(seen.ids), id)
    ensures seen.ids == old(seen.ids) + (IDs(items, id) - {""})
  {
    r := dst;
    for i := 0 to |items|
      invariant r == dst + Kept(items[..i], old(seen.ids), id)
      invariant seen.ids == old(seen.ids) + (IDs(items[..i], id) - {""})
    {
      assert items[..i + 1][..i] == items[..i] && items[..i + 1] == items[..i] + [items[i]];
      assert IDs(items[..i + 1], id) == IDs(items[..i], id) + {id(items[i])};
      if id(items[i]) == "" {
        continue;
      }
      if id(items[i]) in seen.ids {
        continue;
      }
      seen.ids := seen.ids + {id(items[i])};
      r := r + [items[i]];
    }
    assert items[..|items|] == items;
  }

  /** With distinct, non-empty IDs, what is kept is what was not seen. */
  lemma {:induction false} KeptIsUnseen<T(!new)>(items: seq<T>, all: set<T>, seen: set<string>, id: T -> string)
    requires DistinctIDs(all, id) && forall x | x in items :: x in all && id(x) != ""
    requires forall i, j | 0 <= i < j < |items| :: items[i] != items[j]
    ensures forall x :: x in Kept(items, seen, id) <==> x in items && id(x) !in seen
    ensures forall i, j | 0 <= i < j < |Kept(items, seen, id)| :: Kept(items, seen, id)[i] != Kept(items, seen, id)[j]
  {
    if items != [] {
      var last, init := items[|items| - 1], items[..|items| - 1];
      assert items == init + [last];
      KeptIsUnseen(init, all, seen, id);
      assert id(last) !in IDs(init, id);
    }
  }

  /** The page size, prefix depth and alphabet the recursion works with. */
  datatype Limits = Limits(page: nat, depth: nat, alphabet: string)

  const SOURCE_LIMITS := Limits(1000, 2, "0123456789abcdefghijklmnopqrstuvwxyz")

  /** Whether the recursion from this prefix reaches `x`. */
  ghost predicate Covered<T>(limits: Limits, all: set<T>, id: T -> string, x: T, prefix: string, depth: nat)
    decreases if depth < limits.depth then limits.depth - depth else 0
  {
    || |Page(all, id, prefix)| <= limits.page
    || depth >= limits.depth
    || ExtendsTo(limits, all, id, x, prefix, depth)
  }

  ghost predicate ExtendsTo<T>(limits: Limits, all: set<T>, id: T -> string, x: T, prefix: string, depth: nat)
    requires depth < limits.depth
    decreases limits.depth - depth, 0
  {
    && |id(x)| > |prefix|
    && id(x)[|prefix|] in limits.alphabet
    && Covered(limits, all, id, x, prefix + [id(x)[|prefix|]], depth + 1)
  }

  /** The items below a prefix that the recursion returns. */
  ghost function Reach<T>(limits: Limits, all: set<T>, id: T -> string, prefix: string, depth: nat): set<T> {
    set x | x in Page(all, id, prefix) && Covered(limits, all, id, x, prefix, depth)
  }

  /** The items a fan-out over the next character returns. */
  ghost function FanReach<T>(limits: Limits, all: set<T>, id: T -> string, prefix: string, depth: nat): set<T>
    requires depth < limits.depth
  {
    set x | x in Page(all, id, prefix) && ExtendsTo(limits, all, id, x, prefix, depth)
  }

  /** The part of it that the first i characters return. */
  ghost function FanUpTo<T>(limits: Limits, all: set<T>, id: T -> string, prefix: string, depth: nat, i: nat): set<T>
    requires depth < limits.depth && i <= |limits.alphabet|
  {
    set x | x in Page(all, id, prefix) && ExtendsTo(limits, all, id, x, prefix, depth)
        && id(x)[|prefix|] in limits.alphabet[..i]
  }

  lemma FanStep<T>(limits: Limits, all: set<T>, id: T -> string, prefix: string, depth: nat, i: nat)
    requires depth < limits.depth && i < |limits.alphabet|
    ensures FanUpTo(limits, all, id, prefix, depth, i + 1)
         == FanUpTo(limits, all, id, prefix, depth, i)
             + Reach(limits, all, id, prefix + [limits.alphabet[i]], depth + 1)
  {
    var c := limits.alphabet[i];
    assert limits.alphabet[..i + 1] == limits.alphabet[..i] + [c];
    forall x | x in all
      ensures prefix + [c] <= id(x) <==> prefix <= id(x) && |id(x)| > |prefix| && id(x)[|prefix|] == c
    {
      ExtendedPrefix(prefix, c, id(x));
    }
  }

  lemma ExtendedPrefix(prefix: string, c: char, name: string)
    ensures prefix + [c] <= name <==> prefix <= name && |name| > |prefix| && name[|prefix|] == c
  {
    if prefix + [c] <= name {
      assert prefix <= prefix + [c];
      assert name[|prefix|] == (prefix + [c])[|prefix|];
    }
  }

  /** The most queries one call at this depth can issue. */
  function Budget(limits: Limits, depth: nat): nat
    decreases if depth < limits.depth then limits.depth - depth else 0
  {
    if depth >= limits.depth then 1 else 1 + |limits.alphabet| * Budget(limits, depth + 1)
  }

  lemma BudgetStep(limits: Limits, depth: nat, i: nat)
    requires depth < limits.depth
    ensures (i + 1) * Budget(limits, depth + 1) == i * Budget(limits, depth + 1) + Budget(limits, depth + 1)
    ensures i < |limits.alphabet| ==>
              (i + 1) * Budget(limits, depth + 1) <= |limits.alphabet| * Budget(limits, depth + 1)
  {
    if i < |limits.alphabet| {
      MultiplyMonotone(i + 1, |limits.alphabet|, Budget(limits, depth + 1));
    }
  }

  lemma MultiplyMonotone(a: nat, b: nat, c: nat)
    requires a <= b
    ensures a * c <= b * c
  {
  }

  /** a + a^2 + ... + a^d. */
  function PowerSum(a: nat, d: nat): nat {
    if d == 0 then 0 else a * (1 + PowerSum(a, d - 1))
  }

  lemma {:induction false} BudgetIsPowerSum(limits: Limits, depth: nat)
    requires depth <= limits.depth
    ensures Budget(limits, depth) == 1 + PowerSum(|limits.alphabet|, limits.depth - depth)
    decreases limits.depth - depth
  {
    if depth < limits.depth {
      BudgetIsPowerSum(limits, depth + 1);
    }
  }

  /** appendUnique joins two listings of subsets of items with distinct, non-empty IDs. */
  lemma MergeListings<T(!new)>(all: set<T>, id: T -> string, results: seq<T>, a: set<T>, child: seq<T>, b: set<T>)
    requires DistinctIDs(all, id) && a <= all && b <= all && forall x | x in b :: id(x) != ""
    requires Exactly(results, a) && Exactly(child, b)
    ensures var kept := Kept(child, IDs(results, id), id);
      Exactly(results + kept, a + b) && IDs(results + kept, id) == IDs(results, id) + (IDs(child, id) - {""})
  {
    var kept := Kept(child, IDs(results, id), id);
    KeptIsUnseen(child, all, IDs(results, id), id);
    IDsOfListing(results, a, id);
    IDsOfListing(child, b, id);
    forall x | x in b ensures id(x) in IDs(results, id) <==> x in a {
    }
    IDsOfListing(results + kept, a + b, id);
  }

  lemma IDsOfListing<T(!new)>(items: seq<T>, members: set<T>, id: T -> string)
    requires forall x :: x in items <==> x in members
    ensures IDs(items, id) == set x | x in members :: id(x)
  {
    forall i | 0 <= i < |items| ensures items[i] in members {
      assert items[i] in items;
    }
    forall x | x in members ensures id(x) in IDs(items, id) {
      var k :| 0 <= k < |items| && items[k] == x;
    }
  }

  /** One round of the fan-out loop. */
  lemma FanMerge<T(!new)>(limits: Limits, all: set<T>, id: T -> string, prefix: string, depth: nat, i: nat,
                          results: seq<T>, child: seq<T>)
    requires DistinctIDs(all, id) && depth < limits.depth && i < |limits.alphabet|
    requires Exactly(results, FanUpTo(limits, all, id, prefix, depth, i))
    requires Exactly(child, Reach(limits, all, id, prefix + [limits.alphabet[i]], depth + 1))
    ensures var kept := Kept(child, IDs(results, id), id);
      && Exactly(results + kept, FanUpTo(limits, all, id, prefix, depth, i + 1))
      && IDs(results + kept, id) == IDs(results, id) + (IDs(child, id) - {""})
  {
    FanStep(limits, all, id, prefix, depth, i);
    MergeListings(all, id, results, FanUpTo(limits, all, id, prefix, depth, i),
                  child, Reach(limits, all, id, prefix + [limits.alphabet[i]], depth + 1));
  }

  lemma FanUpToAll<T>(limits: Limits, all: set<T>, id: T -> string, prefix: string, depth: nat)
    requires depth < limits.depth
    ensures FanUpTo(limits, all, id, prefix, depth, |limits.alphabet|) == FanReach(limits, all, id, prefix, depth)
    ensures FanUpTo(limits, all, id, prefix, depth, 0) == {}
  {
    assert limits.alphabet[..|limits.alphabet|] == limits.alphabet;
  }

  class Paginator<T(!new)> {
    const limits: Limits
    const lister: Lister<T>
    const id: T -> string

    constructor (limits: Limits, lister: Lister<T>, id: T -> string)
      ensures this.limits == limits && this.lister == lister && this.id == id
    {
      this.limits, this.lister, this.id := limits, lister, id;
    }

    /**
     The loop over the alphabet, shared by both functions of the source: list each
     longer prefix and keep what was not seen. Any failing query fails the whole.
     */
    method FanOut(prefix: string, depth: nat, ghost all: set<T>) returns (r: Result<seq<T>, ListError>)
      requires depth < limits.depth
      requires Accurate(lister.reply, all, id) && DistinctIDs(all, id)
      modifies lister
      ensures r.Ok? ==> Exactly(r.value, FanReach(limits, all, id, prefix, depth))
      ensures r.Err? ==> lister.LastReply() == r && |lister.queries| > |old(lister.queries)|
      ensures old(lister.queries) <= lister.queries
      ensures forall k | |old(lister.queries)| <= k < |lister.queries| :: |lister.queries[k]| > |prefix|
      ensures r.Ok? && |limits.alphabet| > 0 ==> |lister.queries| > |old(lister.queries)| && lister.LastReply().Ok?
      ensures |lister.queries| <= |old(lister.queries)| + |limits.alphabet| * Budget(limits, depth + 1)
      ensures 0 <= lister.requests - old(lister.requests) <= 4 * (|lister.queries| - |old(lister.queries)|)
      decreases limits.depth - depth, 0
    {
      var results: seq<T> := [];
      var seen := new Seen();
      FanUpToAll(limits, all, id, prefix, depth);
      for i := 0 to |limits.alphabet|
        invariant fresh(seen)
        invariant Exactly(results, FanUpTo(limits, all, id, prefix, depth, i))
        invariant seen.ids == IDs(results, id)
        invariant old(lister.queries) <= lister.queries
        invariant forall k | |old(lister.queries)| <= k < |lister.queries| :: |lister.queries[k]| > |prefix|
        invariant i > 0 ==> |lister.queries| > |old(lister.queries)| && lister.LastReply().Ok?
        invariant |lister.queries| <= |old(lister.queries)| + i * Budget(limits, depth + 1)
        invariant 0 <= lister.requests - old(lister.requests) <= 4 * (|lister.queries| - |old(lister.queries)|)
      {
        var childPrefix := prefix + [limits.alphabet[i]];
        var child := PaginateByIDPrefixDepth(childPrefix, depth + 1, all);
        if child.Err? {
          BudgetStep(limits, depth, i);
          return child;
        }
        FanMerge(limits, all, id, prefix, depth, i, results, child.value);
        results := AppendUnique(results, child.value, seen, id);
        BudgetStep(limits, depth, i);
      }
      r := Ok(results);
    }

    method PaginateByIDPrefixDepth(prefix: string, depth: nat, ghost all: set<T>) returns (r: Result<seq<T>, ListError>)
      requires Accurate(lister.reply, all, id) && DistinctIDs(all, id)
      modifies lister
      ensures r.Ok? ==> Exactly(r.value, Reach(limits, all, id, prefix, depth))
      ensures r.Err? ==> lister.LastReply() == r && |lister.queries| > |old(lister.queries)|
      ensures r.Ok? ==> |lister.queries| > |old(lister.queries)| && lister.LastReply().Ok?
      ensures r.Ok? && |Page(all, id, prefix)| <= limits.page ==> lister.queries == old(lister.queries) + [prefix]
      ensures old(lister.queries) <= lister.queries
      ensures forall k | |old(lister.queries)| <= k < |lister.queries| :: |lister.queries[k]| >= |prefix|
      ensures |lister.queries| <= |old(lister.queries)| + Budget(limits, depth)
      ensures 0 <= lister.requests - old(lister.requests) <= 4 * (|lister.queries| - |old(lister.queries)|)
      decreases if depth < limits.depth then limits.depth - depth else 0, 1
    {
      var items := lister.List(prefix);
      if items.Err? {
        return items;
      }
      ExactlyHasSize(items.value, Page(all, id, prefix));
      if |items.value| <= limits.page || depth >= limits.depth {
        return items;
      }
      r := FanOut(prefix, depth, all);
      assert Reach(limits, all, id, prefix, depth) == FanReach(limits, all, id, prefix, depth);
    }

    /**
     Everything the prefixes reach, each item once, within the query budget
     a + a^2 + ... + a^depth, and at most four requests a query.
     */
    method PaginateByIDPrefix(ghost all: set<T>) returns (r: Result<seq<T>, ListError>)
      requires limits.depth >= 1
      requires Accurate(lister.reply, all, id) && DistinctIDs(all, id)
      modifies lister
      ensures r.Ok? ==> Exactly(r.value, FanReach(limits, all, id, "", 0))
      ensures r.Err? ==> lister.LastReply() == r && |lister.queries| > |old(lister.queries)|
      ensures old(lister.queries) <= lister.queries
      ensures forall k | |old(lister.queries)| <= k < |lister.queries| :: lister.queries[k] != ""
      ensures r.Ok? && |limits.alphabet| > 0 ==> |lister.queries| > |old(lister.queries)| && lister.LastReply().Ok?
      ensures |lister.queries| <= |old(lister.queries)| + PowerSum(|limits.alphabet|, limits.depth)
      ensures 0 <= lister.requests - old(lister.requests) <= 4 * PowerSum(|limits.alphabet|, limits.depth)
    {
      r := FanOut("", 0, all);
      BudgetIsPowerSum(limits, 1);
    }
  }

  /** An ID long enough for the deepest prefix, over the alphabet. */
  predicate WellFormedID(limits: Limits, name: string) {
    |name| >= limits.depth && forall i | 0 <= i < limits.depth :: name[i] in limits.alphabet
  }

  lemma {:induction false} WellFormedIsCovered<T>(limits: Limits, all: set<T>, id: T -> string, x: T, prefix: string,
                                                  depth: nat)
    requires WellFormedID(limits, id(x)) && prefix <= id(x) && |prefix| == depth
    ensures Covered(limits, all, id, x, prefix, depth)
    ensures depth < limits.depth ==> ExtendsTo(limits, all, id, x, prefix, depth)
    decreases if depth < limits.depth then limits.depth - depth else 0
  {
    if depth < limits.depth {
      WellFormedIsCovered(limits, all, id, x, prefix + [id(x)[depth]], depth + 1);
    }
  }

  /** Completeness: with well-formed IDs nothing is out of reach, whatever the page sizes. */
  lemma WellFormedAllReached<T>(limits: Limits, all: set<T>, id: T -> string)
    requires limits.depth >= 1 && forall x | x in all :: WellFormedID(limits, id(x))
    ensures FanReach(limits, all, id, "", 0) == all
  {
    forall x | x in all ensures x in FanReach(limits, all, id, "", 0) {
      WellFormedIsCovered(limits, all, id, x, "", 0);
    }
  }

  /** The source's own numbers: at most 36 + 36 * 36 queries. */
  lemma SourceBudget()
    ensures PowerSum(|SOURCE_LIMITS.alphabet|, SOURCE_LIMITS.depth) == 36 + 36 * 36
  {
    assert PowerSum(36, 1) == 36;
  }

  /**
   Exactly which items the source's two-level paging misses: with an over-full page
   of its first character, an item whose ID has no second character of the alphabet.
   */
  lemma SourceReachIsExact<T>(all: set<T>, id: T -> string, x: T)
    requires x in all
    ensures x in FanReach(SOURCE_LIMITS, all, id, "", 0) <==>
              var name := id(x);
              && |name| >= 1 && name[0] in SOURCE_LIMITS.alphabet
              && (|Page(all, id, [name[0]])| > 1000 ==> |name| >= 2 && name[1] in SOURCE_LIMITS.alphabet)
  {
    if |id(x)| >= 1 {
      assert "" + [id(x)[0]] == [id(x)[0]];
    }
  }
}
