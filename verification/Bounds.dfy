/** Two traversals that stop early: the bounds of a portable document and of the claims of a request. */
module Bounds {
  import opened Prelude

  // ---- portable documents ----

  datatype Block = Plain | Section(blocks: seq<Block>)

  /** How many blocks there are, sections and what is in them included. */
  function Size(b: Block): nat {
    match b
    case Plain => 1
    case Section(blocks) => 1 + SizeAll(blocks)
  }

  function SizeAll(blocks: seq<Block>): nat {
    if blocks == [] then 0 else Size(blocks[0]) + SizeAll(blocks[1..])
  }

  /** How many sections the deepest block of `b` is in, `b` itself included. */
  function Nesting(b: Block): nat {
    match b
    case Plain => 0
    case Section(blocks) => 1 + NestingAll(blocks)
  }

  function NestingAll(blocks: seq<Block>): (n: nat)
    ensures forall i :: 0 <= i < |blocks| ==> Nesting(blocks[i]) <= n
  {
    if blocks == [] then 0
    else
      var first, rest := Nesting(blocks[0]), NestingAll(blocks[1..]);
      assert forall i :: 1 <= i < |blocks| ==> blocks[i] == blocks[1..][i - 1];
      if first > rest then first else rest
  }

  const MAXIMUM_BLOCKS := 1024
  const MAXIMUM_NESTING := 8

  type Pending = seq<(Block, nat)>

  function PendingSize(pending: Pending): nat {
    if pending == [] then 0 else PendingSize(pending[..|pending| - 1]) + Size(pending[|pending| - 1].0)
  }

  predicate Shallow(item: (Block, nat)) {
    item.0.Plain? || item.1 + Nesting(item.0) <= MAXIMUM_NESTING
  }

  predicate AllShallow(pending: Pending) {
    forall i :: 0 <= i < |pending| ==> Shallow(pending[i])
  }

  function AtDepth(blocks: seq<Block>, depth: nat): (r: Pending)
    ensures |r| == |blocks| && forall i :: 0 <= i < |r| ==> r[i] == (blocks[i], depth)
  {
    if blocks == [] then [] else [(blocks[0], depth)] + AtDepth(blocks[1..], depth)
  }

  lemma {:induction false} PendingSizeConcat(a: Pending, b: Pending)
    ensures PendingSize(a + b) == PendingSize(a) + PendingSize(b)
    decreases |b|
  {
    if b == [] {
      assert a + b == a;
    } else {
      assert (a + b)[..|a + b| - 1] == a + b[..|b| - 1];
      PendingSizeConcat(a, b[..|b| - 1]);
    }
  }

  lemma {:induction false} PendingSizeAtDepth(blocks: seq<Block>, depth: nat)
    ensures PendingSize(AtDepth(blocks, depth)) == SizeAll(blocks)
    decreases |blocks|
  {
    if blocks != [] {
      PendingSizeAtDepth(blocks[1..], depth);
      var first: Pending := [(blocks[0], depth)];
      assert first[..0] == [];
      assert PendingSize(first) == Size(blocks[0]);
      PendingSizeConcat(first, AtDepth(blocks[1..], depth));
    }
  }

  lemma {:induction false} NestingAllReached(blocks: seq<Block>) returns (i: nat)
    requires blocks != []
    ensures i < |blocks| && Nesting(blocks[i]) == NestingAll(blocks)
    decreases |blocks|
  {
    i := 0;
    if |blocks| > 1 && Nesting(blocks[0]) <= NestingAll(blocks[1..]) {
      i := NestingAllReached(blocks[1..]);
      i := i + 1;
    }
  }

  /** A section is shallow when it is itself within the limit and everything in it is. */
  lemma ShallowSection(blocks: seq<Block>, depth: nat)
    ensures Shallow((Section(blocks), depth)) <==> depth < MAXIMUM_NESTING && AllShallow(AtDepth(blocks, depth + 1))
  {
    var inner := AtDepth(blocks, depth + 1);
    if depth < MAXIMUM_NESTING && AllShallow(inner) && blocks != [] {
      var i := NestingAllReached(blocks);
      assert Shallow(inner[i]);
    }
  }

  lemma PoppedSize(pending: Pending)
    requires pending != []
    ensures var b := pending[|pending| - 1].0;
            && PendingSize(pending) == PendingSize(pending[..|pending| - 1]) + Size(b)
            && Size(b) >= 1 && (b.Plain? ==> Size(b) == 1)
  {
    hide SizeAll;
  }

  lemma FrontAndLast<T>(s: seq<T>)
    requires s != []
    ensures s == s[..|s| - 1] + [s[|s| - 1]]
  {
  }

  lemma PoppedShallow(rest: Pending, last: (Block, nat))
    ensures AllShallow(rest + [last]) <==> AllShallow(rest) && Shallow(last)
  {
    hide Shallow, AllShallow;
    ShallowAlone(last);
    AllShallowConcat(rest, [last]);
  }

  lemma Popped(pending: Pending)
    requires pending != []
    ensures var rest, last := pending[..|pending| - 1], pending[|pending| - 1];
            && PendingSize(pending) == PendingSize(rest) + Size(last.0) && Size(last.0) >= 1
            && (last.0.Plain? ==> Size(last.0) == 1)
            && (AllShallow(pending) <==> AllShallow(rest) && Shallow(last))
            && (last.0.Plain? ==> Shallow(last))
            && (last.0.Section? && last.1 >= MAXIMUM_NESTING ==> !Shallow(last))
  {
    hide *;
    PoppedSize(pending);
    FrontAndLast(pending);
    PoppedShallow(pending[..|pending| - 1], pending[|pending| - 1]);
    ShallowAlone(pending[|pending| - 1]);
  }

  lemma ShallowAlone(item: (Block, nat))
    ensures AllShallow([item]) <==> Shallow(item)
    ensures item.0.Plain? ==> Shallow(item)
    ensures item.0.Section? && item.1 >= MAXIMUM_NESTING ==> !Shallow(item)
  {
    assert [item][0] == item;
  }

  lemma Pushed(pending: Pending, blocks: seq<Block>, depth: nat)
    ensures var longer := pending + AtDepth(blocks, depth + 1);
            && PendingSize(longer) + 1 == PendingSize(pending) + Size(Section(blocks))
            && (depth < MAXIMUM_NESTING ==>
                  (AllShallow(longer) <==> AllShallow(pending) && Shallow((Section(blocks), depth))))
  {
    ShallowSection(blocks, depth);
    PendingSizeAtDepth(blocks, depth + 1);
    PendingSizeConcat(pending, AtDepth(blocks, depth + 1));
    AllShallowConcat(pending, AtDepth(blocks, depth + 1));
  }

  /** validate_bounds: the traversal with an explicit stack accepts exactly the documents with at most 1024 blocks
      and no section inside eight others. */
  method ValidateBounds(summary: seq<Block>, content: seq<Block>) returns (ok: bool)
    ensures ok <==>
            && SizeAll(summary + content) <= MAXIMUM_BLOCKS
            && NestingAll(summary + content) <= MAXIMUM_NESTING
  {
    var all := summary + content;
    var pending: Pending := AtDepth(all, 0);
    ghost var shallow := AllShallow(pending);
    PendingSizeAtDepth(all, 0);
    ShallowDocument(all);
    var count := 0;
    hide AllShallow, Size, AtDepth, NestingAll;
    while pending != []
      invariant count <= MAXIMUM_BLOCKS && count + PendingSize(pending) == SizeAll(all)
      invariant AllShallow(pending) <==> shallow
      decreases PendingSize(pending)
    {
      var (block, depth) := pending[|pending| - 1];
      Popped(pending);
      pending := pending[..|pending| - 1];
      count := count + 1;
      if count > MAXIMUM_BLOCKS || (block.Section? && depth >= MAXIMUM_NESTING) {
        return false;
      }
      if block.Section? {
        Pushed(pending, block.blocks, depth);
        pending := pending + AtDepth(block.blocks, depth + 1);
      }
    }
    return true;
  }

  lemma AllShallowConcat(a: Pending, b: Pending)
    ensures AllShallow(a + b) <==> AllShallow(a) && AllShallow(b)
  {
    assert forall i :: 0 <= i < |a| ==> (a + b)[i] == a[i];
    assert forall i :: 0 <= i < |b| ==> (a + b)[|a| + i] == b[i];
  }

  lemma ShallowDocument(blocks: seq<Block>)
    ensures AllShallow(AtDepth(blocks, 0)) <==> NestingAll(blocks) <= MAXIMUM_NESTING
  {
    var pending := AtDepth(blocks, 0);
    if AllShallow(pending) && blocks != [] {
      var i := NestingAllReached(blocks);
      assert Shallow(pending[i]);
    }
  }

  // ---- claims ----

  /** A JSON value; a key that is not a string is None, and Other is anything JSON has no word for. */
  datatype Entry = Entry(key: Option<string>, value: Json)

  datatype Json = Str(text: string) | Obj(entries: seq<Entry>) | Arr(items: seq<Json>) | Scalar | Other

  datatype Limits = Limits(maximumEncodedBytes: int, maximumObjectDepth: int, maximumStringLength: int,
                           maximumMemberCount: nat)

  /** All members of all objects in the value. */
  function Members(v: Json): nat {
    match v
    case Obj(entries) => MembersOf(entries)
    case Arr(items) => MembersIn(items)
    case Str(_) => 0
    case Scalar => 0
    case Other => 0
  }

  function MembersOf(entries: seq<Entry>): nat {
    if entries == [] then 0
    else MembersOf(entries[..|entries| - 1]) + MembersAt(entries[|entries| - 1])
  }

  function MembersAt(entry: Entry): nat { 1 + Members(entry.value) }

  function MembersIn(items: seq<Json>): nat {
    if items == [] then 0 else MembersIn(items[..|items| - 1]) + Members(items[|items| - 1])
  }

  /** Containers no deeper and strings no longer than allowed, and nothing that is not JSON. */
  predicate Shaped(v: Json, limits: Limits, depth: nat) {
    match v
    case Str(text) => |text| <= limits.maximumStringLength
    case Obj(entries) =>
      depth <= limits.maximumObjectDepth && forall i :: 0 <= i < |entries| ==> EntryShaped(entries[i], limits, depth)
    case Arr(items) =>
      depth <= limits.maximumObjectDepth && forall i :: 0 <= i < |items| ==> Shaped(items[i], limits, depth + 1)
    case Scalar => true
    case Other => false
  }

  predicate EntryShaped(entry: Entry, limits: Limits, depth: nat) {
    entry.key.Some? && |entry.key.value| <= limits.maximumStringLength && Shaped(entry.value, limits, depth + 1)
  }

  lemma {:induction false} MembersGrow(entries: seq<Entry>, i: nat)
    requires i <= |entries|
    ensures MembersOf(entries[..i]) <= MembersOf(entries)
    ensures i < |entries| ==> MembersOf(entries[..i]) + MembersAt(entries[i]) <= MembersOf(entries)
    decreases |entries|
  {
    if i == |entries| {
      assert entries[..i] == entries;
    } else if i < |entries| - 1 {
      MembersGrow(entries[..|entries| - 1], i);
      assert entries[..|entries| - 1][..i] == entries[..i];
    }
  }

  lemma {:induction false} MembersInGrow(items: seq<Json>, i: nat)
    requires i <= |items|
    ensures MembersIn(items[..i]) <= MembersIn(items)
    ensures i < |items| ==> MembersIn(items[..i]) + Members(items[i]) <= MembersIn(items)
    decreases |items|
  {
    if i == |items| {
      assert items[..i] == items;
    } else if i < |items| - 1 {
      MembersInGrow(items[..|items| - 1], i);
      assert items[..|items| - 1][..i] == items[..i];
    }
  }

  /** The counter the recursive calls share. */
  class Counter {
    var count: nat

    constructor ()
      ensures count == 0
    {
      count := 0;
    }
  }

  /** _within_structure */
  method WithinStructure(v: Json, limits: Limits, depth: nat, members: Counter) returns (ok: bool)
    requires members.count <= limits.maximumMemberCount
    modifies members
    ensures ok <==> Shaped(v, limits, depth) && old(members.count) + Members(v) <= limits.maximumMemberCount
    ensures ok ==> members.count == old(members.count) + Members(v)
    decreases v, 1
  {
    match v {
      case Str(text) => return |text| <= limits.maximumStringLength;
      case Obj(entries) =>
        if depth > limits.maximumObjectDepth {
          return false;
        }
        ok := MembersWithin(entries, limits, depth, members);
      case Arr(items) =>
        if depth > limits.maximumObjectDepth {
          return false;
        }
        ok := ItemsWithin(items, limits, depth, members);
      case Scalar => return true;
      case Other => return false;
    }
  }

  /** The loop over the members of an object. */
  method MembersWithin(entries: seq<Entry>, limits: Limits, depth: nat, members: Counter) returns (ok: bool)
    requires members.count <= limits.maximumMemberCount
    modifies members
    ensures ok <==>
            && (forall i :: 0 <= i < |entries| ==> EntryShaped(entries[i], limits, depth))
            && old(members.count) + MembersOf(entries) <= limits.maximumMemberCount
    ensures ok ==> members.count == old(members.count) + MembersOf(entries)
    decreases entries, 0
  {
    for i := 0 to |entries|
      invariant members.count == old(members.count) + MembersOf(entries[..i]) <= limits.maximumMemberCount
      invariant forall j :: 0 <= j < i ==> EntryShaped(entries[j], limits, depth)
    {
      MembersGrow(entries, i);
      assert entries[..i + 1][..i] == entries[..i];
      var within := EntryWithin(entries[i], limits, depth, members);
      if !within {
        return false;
      }
    }
    assert entries[..|entries|] == entries;
    return true;
  }

  method EntryWithin(entry: Entry, limits: Limits, depth: nat, members: Counter) returns (ok: bool)
    requires members.count <= limits.maximumMemberCount
    modifies members
    ensures ok <==>
            EntryShaped(entry, limits, depth) && old(members.count) + MembersAt(entry) <= limits.maximumMemberCount
    ensures ok ==> members.count == old(members.count) + MembersAt(entry)
    decreases entry, 0
  {
    members.count := members.count + 1;
    if members.count > limits.maximumMemberCount || entry.key.None? || |entry.key.value| > limits.maximumStringLength {
      return false;
    }
    ok := WithinStructure(entry.value, limits, depth + 1, members);
  }

  /** The loop over the items of an array. */
  method ItemsWithin(items: seq<Json>, limits: Limits, depth: nat, members: Counter) returns (ok: bool)
    requires members.count <= limits.maximumMemberCount
    modifies members
    ensures ok <==>
            && (forall i :: 0 <= i < |items| ==> Shaped(items[i], limits, depth + 1))
            && old(members.count) + MembersIn(items) <= limits.maximumMemberCount
    ensures ok ==> members.count == old(members.count) + MembersIn(items)
    decreases items, 0
  {
    for i := 0 to |items|
      invariant members.count == old(members.count) + MembersIn(items[..i]) <= limits.maximumMemberCount
      invariant forall j :: 0 <= j < i ==> Shaped(items[j], limits, depth + 1)
    {
      MembersInGrow(items, i);
      assert items[..i + 1][..i] == items[..i];
      var within := WithinStructure(items[i], limits, depth + 1, members);
      if !within {
        return false;
      }
    }
    assert items[..|items|] == items;
    return true;
  }

  /** _claims_within_limits; `encodedBytes` tells how long the compact JSON text of a value is. */
  method ClaimsWithinLimits(claims: Option<Json>, limits: Limits, encodedBytes: Json -> nat) returns (ok: bool)
    ensures ok <==> claims.Some? ==>
              && encodedBytes(claims.value) <= limits.maximumEncodedBytes
              && Shaped(claims.value, limits, 1) && Members(claims.value) <= limits.maximumMemberCount
  {
    if claims.None? {
      return true;
    }
    if encodedBytes(claims.value) > limits.maximumEncodedBytes {
      return false;
    }
    var members := new Counter();
    ok := WithinStructure(claims.value, limits, 1, members);
  }

  lemma {:induction false} MembersWithout(entries: seq<Entry>, k: nat)
    requires k < |entries|
    ensures MembersOf(entries) == MembersOf(entries[..k] + entries[k + 1..]) + 1 + Members(entries[k].value)
    decreases |entries|
  {
    var n := |entries| - 1;
    if k == n {
      assert entries[..k] + entries[k + 1..] == entries[..n];
    } else {
      var rest := entries[..k] + entries[k + 1..];
      assert rest[..|rest| - 1] == entries[..n][..k] + entries[..n][k + 1..];
      assert rest[|rest| - 1] == entries[n];
      MembersWithout(entries[..n], k);
    }
  }

  lemma RemovedAt(s: seq<Entry>, k: nat)
    requires k < |s|
    ensures multiset(s[..k] + s[k + 1..]) == multiset(s) - multiset{s[k]}
  {
    assert s == s[..k] + ([s[k]] + s[k + 1..]);
  }

  lemma RemovedAlike(a: seq<Entry>, b: seq<Entry>, k: nat)
    requires multiset(a) == multiset(b) && a != [] && k < |b| && b[k] == a[|a| - 1]
    ensures multiset(a[..|a| - 1]) == multiset(b[..k] + b[k + 1..])
  {
    RemovedAt(a, |a| - 1);
    RemovedAt(b, k);
    assert a[..|a| - 1] + a[|a|..] == a[..|a| - 1];
  }

  lemma {:induction false} MembersPermute(a: seq<Entry>, b: seq<Entry>)
    requires multiset(a) == multiset(b)
    ensures MembersOf(a) == MembersOf(b)
    decreases |a|
  {
    if a == [] {
      assert |multiset(b)| == 0;
    } else {
      assert a[|a| - 1] in multiset(b);
      var k :| 0 <= k < |b| && b[k] == a[|a| - 1];
      RemovedAlike(a, b, k);
      MembersPermute(a[..|a| - 1], b[..k] + b[k + 1..]);
      MembersWithout(b, k);
    }
  }

  /** The verdict does not depend on the order of the members of an object, although the traversal stops at
      different places. */
  lemma OrderDoesNotMatter(a: seq<Entry>, b: seq<Entry>, limits: Limits, depth: nat)
    requires multiset(a) == multiset(b)
    ensures Members(Obj(a)) == Members(Obj(b))
    ensures Shaped(Obj(a), limits, depth) <==> Shaped(Obj(b), limits, depth)
  {
    MembersPermute(a, b);
    hide EntryShaped, MembersOf;
    assert forall i :: 0 <= i < |a| ==> a[i] in multiset(b);
    assert forall i :: 0 <= i < |b| ==> b[i] in multiset(a);
  }

  /** The same value with the members of objects in another order, at any depth. */
  ghost predicate Reordered(a: Json, b: Json)
    decreases a
  {
    match a
    case Obj(entries) =>
      b.Obj? && exists moved: seq<Entry> ::
        (&& multiset(moved) == multiset(b.entries) && |moved| == |entries|
         && forall i :: 0 <= i < |entries| ==> EntryReordered(entries[i], moved[i]))
    case Arr(items) =>
      b.Arr? && |b.items| == |items| && forall i :: 0 <= i < |items| ==> Reordered(items[i], b.items[i])
    case Str(_) => a == b
    case Scalar => a == b
    case Other => a == b
  }

  ghost predicate EntryReordered(a: Entry, b: Entry)
    decreases a
  {
    a.key == b.key && Reordered(a.value, b.value)
  }

  /** The verdict is the same on every reordering, at whatever depth it reorders. */
  lemma {:induction false} ReorderingDoesNotMatter(a: Json, b: Json, limits: Limits, depth: nat)
    requires Reordered(a, b)
    ensures Members(a) == Members(b)
    ensures Shaped(a, limits, depth) <==> Shaped(b, limits, depth)
    decreases a, 1
  {
    match a {
      case Obj(entries) =>
        var moved: seq<Entry> :| multiset(moved) == multiset(b.entries) && |moved| == |entries| &&
          forall i :: 0 <= i < |entries| ==> EntryReordered(entries[i], moved[i]);
        forall i | 0 <= i < |entries|
          ensures MembersAt(entries[i]) == MembersAt(moved[i])
          ensures EntryShaped(entries[i], limits, depth) <==> EntryShaped(moved[i], limits, depth)
        {
          EntryAlike(entries[i], moved[i], limits, depth);
        }
        EntriesAlike(entries, moved);
        OrderDoesNotMatter(moved, b.entries, limits, depth);
      case Arr(items) =>
        forall i | 0 <= i < |items|
          ensures Members(items[i]) == Members(b.items[i])
          ensures Shaped(items[i], limits, depth + 1) <==> Shaped(b.items[i], limits, depth + 1)
        {
          ReorderingDoesNotMatter(items[i], b.items[i], limits, depth + 1);
        }
        ItemsAlike(items, b.items);
      case Str(_) =>
      case Scalar =>
      case Other =>
    }
  }

  lemma {:induction false} EntryAlike(a: Entry, b: Entry, limits: Limits, depth: nat)
    requires EntryReordered(a, b)
    ensures MembersAt(a) == MembersAt(b) && (EntryShaped(a, limits, depth) <==> EntryShaped(b, limits, depth))
    decreases a, 0
  {
    ReorderingDoesNotMatter(a.value, b.value, limits, depth + 1);
  }

  lemma {:induction false} EntriesAlike(a: seq<Entry>, b: seq<Entry>)
    requires |a| == |b| && forall i :: 0 <= i < |a| ==> MembersAt(a[i]) == MembersAt(b[i])
    ensures MembersOf(a) == MembersOf(b)
    decreases |a|
  {
    hide MembersAt;
    if a != [] { EntriesAlike(a[..|a| - 1], b[..|b| - 1]); }
  }

  lemma {:induction false} ItemsAlike(a: seq<Json>, b: seq<Json>)
    requires |a| == |b| && forall i :: 0 <= i < |a| ==> Members(a[i]) == Members(b[i])
    ensures MembersIn(a) == MembersIn(b)
    decreases |a|
  {
    hide Members;
    if a != [] { ItemsAlike(a[..|a| - 1], b[..|b| - 1]); }
  }
}
