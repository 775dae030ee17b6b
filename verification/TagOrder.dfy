/**
 The ordering of tag names, frontend/src/tagOrder.ts: blocks of neighbouring names with one
 namespace, natural sorting inside the blocks, insertion of a new name and reconciliation of
 an edited order with the names that exist.
 */
module TagOrder {
  import opened Options
  import opened NaturalOrder

  // ---- sorting by the natural order -------------------------------------------------------------------

  ghost predicate IsSorted(s: seq<Text>) {
    forall i, j | 0 <= i < j < |s| :: NameOrder(s[i], s[j]) <= 0
  }

  function InsertName(x: Text, s: seq<Text>): (r: seq<Text>)
    ensures multiset(r) == multiset{x} + multiset(s)
  {
    if s == [] || NameOrder(x, s[0]) <= 0 then [x] + s
    else
      assert s == [s[0]] + s[1..];
      [s[0]] + InsertName(x, s[1..])
  }

  lemma {:induction false} InsertKeepsSorted(x: Text, s: seq<Text>)
    requires IsSorted(s)
    ensures IsSorted(InsertName(x, s))
  {
    if s == [] {
    } else if NameOrder(x, s[0]) <= 0 {
      forall j | 0 <= j < |s|
        ensures NameOrder(x, s[j]) <= 0
      {
        if j > 0 {
          OrderTransitive(x, s[0], s[j]);
        }
      }
    } else {
      var rest := InsertName(x, s[1..]);
      InsertKeepsSorted(x, s[1..]);
      forall j | 0 <= j < |rest|
        ensures NameOrder(s[0], rest[j]) <= 0
      {
        assert rest[j] in multiset(rest);
        OrderReversed(x, s[0]);
        assert rest[j] == x || rest[j] in s[1..];
      }
    }
  }

  function SortNames(s: seq<Text>): (r: seq<Text>)
    ensures multiset(r) == multiset(s)
  {
    if s == [] then []
    else
      assert s == [s[0]] + s[1..];
      InsertName(s[0], SortNames(s[1..]))
  }

  lemma {:induction false} SortSorts(s: seq<Text>)
    ensures IsSorted(SortNames(s))
  {
    if s != [] {
      SortSorts(s[1..]);
      InsertKeepsSorted(s[0], SortNames(s[1..]));
    }
  }

  /** A list has one sorted arrangement only, so every correct sort returns the same list. */
  lemma {:induction false} SortIsUnique(a: seq<Text>, b: seq<Text>)
    requires IsSorted(a) && IsSorted(b) && multiset(a) == multiset(b)
    ensures a == b
  {
    assert |a| == |multiset(a)| == |multiset(b)| == |b|;
    if a != [] {
      assert a[0] in multiset(b);
      assert b[0] in multiset(a);
      FirstIsLeast(a, b[0]);
      FirstIsLeast(b, a[0]);
      OrderReversed(a[0], b[0]);
      OrderZero(a[0], b[0]);
      assert a == [a[0]] + a[1..] && b == [b[0]] + b[1..];
      assert multiset(a[1..]) == multiset(a) - multiset{a[0]};
      SortIsUnique(a[1..], b[1..]);
    }
  }

  lemma FirstIsLeast(s: seq<Text>, x: Text)
    requires IsSorted(s) && x in s
    ensures NameOrder(s[0], x) <= 0
  {
    var i :| 0 <= i < |s| && s[i] == x;
    OrderZero(s[0], s[0]);
  }

  lemma SortedIsFixed(s: seq<Text>)
    requires IsSorted(s)
    ensures SortNames(s) == s
  {
    SortSorts(s);
    SortIsUnique(SortNames(s), s);
  }

  // ---- blocks -----------------------------------------------------------------------------------------

  function Namespace(name: Text): Option<Text> {
    var i := IndexOfColon(name);
    if i <= 0 then None else Some(seq(i, k requires 0 <= k < i => LowerCode(name[k])))
  }

  /** Names have the same namespace exactly when what stands before their first colon is the same but for case;
      without a colon, or with nothing before it, they have none. */
  lemma NamespaceIs(space: Text, rest: Text)
    requires forall i | 0 <= i < |space| :: space[i] != 58
    ensures Namespace(space) == None
    ensures var ns := Namespace(space + [58] + rest);
            if space == [] then ns == None
            else ns.Some? && |ns.value| == |space| && forall i | 0 <= i < |space| :: ns.value[i] == LowerCode(space[i])
  {
    var name, k := space + [58] + rest, |space|;
    assert name[k] == 58 && forall i | 0 <= i < k :: name[i] == space[i];
    assert IndexOfColon(name) == k;
  }

  datatype Block = Block(names: seq<Text>, space: Option<Text>)

  ghost predicate BlockFits(b: Block) {
    && b.names != [] && (b.space.None? ==> |b.names| == 1)
    && forall k | 0 <= k < |b.names| :: Namespace(b.names[k]) == b.space
  }

  /** Blocks are as long as they can be: neighbours differ in namespace, and names without one stand alone. */
  ghost predicate WellFormed(blocks: seq<Block>) {
    && (forall i | 0 <= i < |blocks| :: BlockFits(blocks[i]))
    && (forall i | 0 <= i < |blocks| - 1 :: blocks[i].space.None? || blocks[i].space != blocks[i + 1].space)
  }

  function Flatten(blocks: seq<Block>): seq<Text> {
    if blocks == [] then [] else blocks[0].names + Flatten(blocks[1..])
  }

  lemma Associate(a: seq<Text>, b: seq<Text>, c: seq<Text>)
    ensures a + (b + c) == a + b + c
  {
  }

  lemma {:induction false} FlattenConcat(a: seq<Block>, b: seq<Block>)
    ensures Flatten(a + b) == Flatten(a) + Flatten(b)
  {
    if a == [] {
      assert a + b == b;
    } else {
      FlattenConcat(a[1..], b);
      assert (a + b)[1..] == a[1..] + b;
      Associate(a[0].names, Flatten(a[1..]), Flatten(b));
    }
  }

  lemma FlattenLast(front: seq<Block>, last: Block)
    ensures Flatten(front + [last]) == Flatten(front) + last.names
  {
    FlattenConcat(front, [last]);
    assert Flatten([last]) == last.names + Flatten([]);
  }

  predicate Joins(blocks: seq<Block>, name: Text) {
    blocks != [] && Namespace(name).Some? && blocks[|blocks| - 1].space == Namespace(name)
  }

  function Extend(blocks: seq<Block>, name: Text): seq<Block> {
    var n := |blocks| - 1;
    if Joins(blocks, name) then blocks[..n] + [Block(blocks[n].names + [name], blocks[n].space)]
    else blocks + [Block([name], Namespace(name))]
  }

  function Blocks(names: seq<Text>): seq<Block> {
    if names == [] then [] else Extend(Blocks(names[..|names| - 1]), names[|names| - 1])
  }

  lemma ExtendFlattens(blocks: seq<Block>, name: Text)
    ensures Flatten(Extend(blocks, name)) == Flatten(blocks) + [name]
  {
    if Joins(blocks, name) {
      var n := |blocks| - 1;
      assert blocks == blocks[..n] + [blocks[n]];
      FlattenLast(blocks[..n], blocks[n]);
      FlattenLast(blocks[..n], Block(blocks[n].names + [name], blocks[n].space));
    } else {
      FlattenLast(blocks, Block([name], Namespace(name)));
    }
  }

  lemma ExtendKeepsWellFormed(blocks: seq<Block>, name: Text)
    requires WellFormed(blocks)
    ensures WellFormed(Extend(blocks, name))
  {
  }

  lemma {:induction false} BlocksAreExact(names: seq<Text>)
    ensures Flatten(Blocks(names)) == names && WellFormed(Blocks(names))
  {
    if names != [] {
      var n := |names| - 1;
      BlocksAreExact(names[..n]);
      ExtendFlattens(Blocks(names[..n]), names[n]);
      ExtendKeepsWellFormed(Blocks(names[..n]), names[n]);
      assert names == names[..n] + [names[n]];
    }
  }

  /** Well-formed blocks without their last name. */
  function Shortened(blocks: seq<Block>): seq<Block>
    requires blocks != [] && blocks[|blocks| - 1].names != []
  {
    var front, last := blocks[..|blocks| - 1], blocks[|blocks| - 1];
    if |last.names| == 1 then front else front + [Block(last.names[..|last.names| - 1], last.space)]
  }

  lemma ShortenedExtends(blocks: seq<Block>)
    requires blocks != [] && WellFormed(blocks)
    ensures var last := blocks[|blocks| - 1].names;
            last != [] && WellFormed(Shortened(blocks)) && Extend(Shortened(blocks), last[|last| - 1]) == blocks
  {
    var front, last := blocks[..|blocks| - 1], blocks[|blocks| - 1];
    assert BlockFits(last) && blocks == front + [last];
    assert last.names == last.names[..|last.names| - 1] + [last.names[|last.names| - 1]];
  }

  lemma BlocksOfLonger(names: seq<Text>, name: Text)
    ensures Blocks(names + [name]) == Extend(Blocks(names), name)
  {
    assert (names + [name])[..|names|] == names;
  }

  /** Well-formed blocks are the blocks of the list they flatten to. */
  lemma {:induction false} BlocksOfFlattened(blocks: seq<Block>)
    requires WellFormed(blocks)
    ensures Blocks(Flatten(blocks)) == blocks
    decreases |Flatten(blocks)|
  {
    if blocks != [] {
      ShortenedExtends(blocks);
      var last := blocks[|blocks| - 1].names;
      var shorter := Shortened(blocks);
      ExtendFlattens(shorter, last[|last| - 1]);
      BlocksOfFlattened(shorter);
      BlocksOfLonger(Flatten(shorter), last[|last| - 1]);
    }
  }

  method BuildTagOrderBlocks(names: seq<Text>) returns (blocks: seq<Block>)
    ensures blocks == Blocks(names) && Flatten(blocks) == names && WellFormed(blocks)
  {
    blocks := [];
    var k := 0;
    while k < |names|
      invariant 0 <= k <= |names| && blocks == Blocks(names[..k])
    {
      var name := names[k];
      var space := Namespace(name);
      var n := |blocks| - 1;
      if space.Some? && n >= 0 && blocks[n].space == space {
        blocks := blocks[..n] + [Block(blocks[n].names + [name], blocks[n].space)];
      } else {
        blocks := blocks + [Block([name], space)];
      }
      assert names[..k + 1][..k] == names[..k];
      k := k + 1;
    }
    assert names[..k] == names;
    BlocksAreExact(names);
  }

  // ---- normalization ----------------------------------------------------------------------------------

  function SortBlock(b: Block): Block {
    if b.space.None? then b else Block(SortNames(b.names), b.space)
  }

  function SortBlocks(blocks: seq<Block>): seq<Block> {
    seq(|blocks|, i requires 0 <= i < |blocks| => SortBlock(blocks[i]))
  }

  function Normalize(names: seq<Text>): seq<Text> {
    Flatten(SortBlocks(Blocks(names)))
  }

  lemma SortedBlockFits(b: Block)
    requires BlockFits(b)
    ensures BlockFits(SortBlock(b)) && |SortBlock(b).names| == |b.names| && multiset(SortBlock(b).names) == multiset(b.names)
    ensures SortBlock(SortBlock(b)) == SortBlock(b)
  {
    var r := SortBlock(b).names;
    assert |multiset(r)| == |multiset(b.names)|;
    forall k | 0 <= k < |r|
      ensures Namespace(r[k]) == b.space
    {
      assert r[k] in multiset(b.names);
    }
    if b.space.Some? {
      SortSorts(b.names);
      SortedIsFixed(r);
    }
  }

  lemma SortedBlocksWellFormed(blocks: seq<Block>)
    requires WellFormed(blocks)
    ensures WellFormed(SortBlocks(blocks)) && SortBlocks(SortBlocks(blocks)) == SortBlocks(blocks)
  {
    forall i | 0 <= i < |blocks|
      ensures BlockFits(SortBlocks(blocks)[i]) && SortBlock(SortBlock(blocks[i])) == SortBlock(blocks[i])
    {
      SortedBlockFits(blocks[i]);
    }
  }

  lemma FlattenSorted(blocks: seq<Block>)
    requires blocks != []
    ensures Flatten(SortBlocks(blocks)) == SortBlock(blocks[0]).names + Flatten(SortBlocks(blocks[1..]))
  {
    assert SortBlocks(blocks)[1..] == SortBlocks(blocks[1..]);
  }

  /** Same names as often as before, and at every position a name of the same namespace. */
  ghost predicate SameShape(a: seq<Text>, b: seq<Text>) {
    && multiset(a) == multiset(b) && |a| == |b|
    && forall i | 0 <= i < |a| :: Namespace(a[i]) == Namespace(b[i])
  }

  lemma SortedBlockShape(b: Block)
    requires BlockFits(b)
    ensures SameShape(SortBlock(b).names, b.names)
  {
    SortedBlockFits(b);
  }

  lemma {:induction false} SortingKeepsShape(blocks: seq<Block>)
    requires forall i | 0 <= i < |blocks| :: BlockFits(blocks[i])
    ensures SameShape(Flatten(SortBlocks(blocks)), Flatten(blocks))
  {
    if blocks != [] {
      SortedBlockShape(blocks[0]);
      SortingKeepsShape(blocks[1..]);
      FlattenSorted(blocks);
      ShapesConcat(SortBlock(blocks[0]).names, blocks[0].names, Flatten(SortBlocks(blocks[1..])), Flatten(blocks[1..]));
    }
  }

  lemma ShapesConcat(a: seq<Text>, b: seq<Text>, c: seq<Text>, d: seq<Text>)
    requires SameShape(a, b) && SameShape(c, d)
    ensures SameShape(a + c, b + d)
  {
  }

  lemma NormalizeKeepsShape(names: seq<Text>)
    ensures SameShape(Normalize(names), names)
  {
    BlocksAreExact(names);
    SortingKeepsShape(Blocks(names));
  }

  /** Normalizing sorts each block in place: the blocks of the result are the sorted blocks. */
  lemma NormalizedBlocks(names: seq<Text>)
    ensures Blocks(Normalize(names)) == SortBlocks(Blocks(names))
  {
    BlocksAreExact(names);
    SortedBlocksWellFormed(Blocks(names));
    BlocksOfFlattened(SortBlocks(Blocks(names)));
  }

  /** Every block of the normalized list holds the names of the block at its place, and in order if it has a namespace. */
  lemma NormalizedIsSorted(names: seq<Text>, i: nat)
    requires i < |Blocks(names)|
    ensures |Blocks(Normalize(names))| == |Blocks(names)|
    ensures var before, after := Blocks(names)[i], Blocks(Normalize(names))[i];
            && after.space == before.space && multiset(after.names) == multiset(before.names)
            && (after.space.Some? ==> IsSorted(after.names)) && (after.space.None? ==> after.names == before.names)
  {
    NormalizedBlocks(names);
    SortSorts(Blocks(names)[i].names);
  }

  lemma NormalizeIdempotent(names: seq<Text>)
    ensures Normalize(Normalize(names)) == Normalize(names)
  {
    NormalizedBlocks(names);
    BlocksAreExact(names);
    SortedBlocksWellFormed(Blocks(names));
  }

  // ---- inserting a new name -----------------------------------------------------------------------------

  ghost predicate Distinct(s: seq<Text>) {
    forall i, j | 0 <= i < j < |s| :: s[i] != s[j]
  }

  function IndexOf(s: seq<Text>, x: Text): (i: int)
    ensures -1 <= i < |s|
    ensures i >= 0 ==> s[i] == x
    ensures i < 0 ==> x !in s
  {
    if s == [] then -1
    else if s[0] == x then 0
    else
      var i := IndexOf(s[1..], x);
      if i < 0 then -1 else i + 1
  }

  function InsertedAt(s: seq<Text>, k: nat, x: Text): seq<Text>
    requires k <= |s|
  {
    s[..k] + [x] + s[k..]
  }

  ghost predicate HasSpace(s: seq<Text>, space: Option<Text>) {
    exists i | 0 <= i < |s| :: Namespace(s[i]) == space
  }

  /** A name goes behind a name of its namespace (the last one, if no name is repeated), or else to the end. */
  ghost predicate IsPlace(s: seq<Text>, x: Text, k: nat)
    requires k <= |s|
  {
    if Namespace(x).Some? && HasSpace(s, Namespace(x)) then
      && k > 0 && Namespace(s[k - 1]) == Namespace(x)
      && (Distinct(s) ==> !HasSpace(s[k..], Namespace(x)))
    else k == |s|
  }

  /** The names of some blocks have only the namespaces of those blocks. */
  lemma {:induction false} SpacesOfBlocks(blocks: seq<Block>, space: Option<Text>)
    requires forall i | 0 <= i < |blocks| :: BlockFits(blocks[i]) && blocks[i].space != space
    ensures !HasSpace(Flatten(blocks), space)
  {
    if blocks != [] {
      SpacesOfBlocks(blocks[1..], space);
      assert BlockFits(blocks[0]);
      var rest := Flatten(blocks[1..]);
      forall i | 0 <= i < |Flatten(blocks)|
        ensures Namespace(Flatten(blocks)[i]) != space
      {
        if i >= |blocks[0].names| {
          assert Flatten(blocks)[i] == rest[i - |blocks[0].names|];
        }
      }
    }
  }

  /** A block's last name stands before the names of the blocks that follow. */
  lemma SplitAfterBlock(blocks: seq<Block>, b: nat)
    requires b < |blocks| && blocks[b].names != []
    ensures var p, last := |Flatten(blocks[..b + 1])|, blocks[b].names[|blocks[b].names| - 1];
            0 < p <= |Flatten(blocks)| && Flatten(blocks)[p - 1] == last && Flatten(blocks)[p..] == Flatten(blocks[b + 1..])
  {
    var front := Flatten(blocks[..b + 1]);
    assert blocks == blocks[..b + 1] + blocks[b + 1..];
    FlattenConcat(blocks[..b + 1], blocks[b + 1..]);
    assert blocks[..b + 1] == blocks[..b] + [blocks[b]];
    FlattenLast(blocks[..b], blocks[b]);
    assert front[|front| - 1] == blocks[b].names[|blocks[b].names| - 1];
  }

  /** Behind the last block of a namespace no name of that namespace follows. */
  lemma PlaceAfterBlock(names: seq<Text>, x: Text, blocks: seq<Block>, b: nat)
    requires Flatten(blocks) == names && WellFormed(blocks) && b < |blocks|
    requires Namespace(x).Some? && blocks[b].space == Namespace(x)
    requires forall j | b < j < |blocks| :: blocks[j].space != Namespace(x)
    ensures var last := blocks[b].names[|blocks[b].names| - 1]; last in names && IsPlace(names, x, IndexOf(names, last) + 1)
  {
    assert BlockFits(blocks[b]);
    SplitAfterBlock(blocks, b);
    SpacesOfBlocks(blocks[b + 1..], Namespace(x));
    PlaceAfterName(names, x, |Flatten(blocks[..b + 1])|);
  }

  lemma PlaceAfterName(names: seq<Text>, x: Text, p: nat)
    requires 0 < p <= |names| && Namespace(x).Some? && Namespace(names[p - 1]) == Namespace(x)
    requires !HasSpace(names[p..], Namespace(x))
    ensures IsPlace(names, x, IndexOf(names, names[p - 1]) + 1)
  {
    assert Distinct(names) ==> IndexOf(names, names[p - 1]) == p - 1;
  }

  /** The list with the name at its place, normalized if natural sorting is on. */
  ghost predicate IsInsertion(ordered: seq<Text>, name: Text, natural: bool, r: seq<Text>) {
    exists k | 0 <= k <= |ordered| :: IsPlace(ordered, name, k) &&
      r == if natural then Normalize(InsertedAt(ordered, k, name)) else InsertedAt(ordered, k, name)
  }

  method InsertNewTagIntoOrder(ordered: seq<Text>, name: Text, natural: bool) returns (r: seq<Text>)
    ensures name in ordered ==> r == ordered
    ensures name !in ordered ==> IsInsertion(ordered, name, natural, r)
  {
    if name in ordered {
      return ordered;
    }
    var insertAt := |ordered|;
    var space := Namespace(name);
    if space.Some? {
      var blocks := BuildTagOrderBlocks(ordered);
      var b := |blocks| - 1;
      while b >= 0 && blocks[b].space != space
        invariant -1 <= b < |blocks| && forall j | b < j < |blocks| :: blocks[j].space != space
      {
        b := b - 1;
      }
      if b >= 0 {
        PlaceAfterBlock(ordered, name, blocks, b);
        assert BlockFits(blocks[b]);
        insertAt := IndexOf(ordered, blocks[b].names[|blocks[b].names| - 1]) + 1;
      } else {
        SpacesOfBlocks(blocks, space);
      }
    }
    assert IsPlace(ordered, name, insertAt);
    r := InsertedAt(ordered, insertAt, name);
    if natural {
      r := Normalize(r);
    }
  }

  // ---- reconciling a draft with the existing names ---------------------------------------------------------

  /** The elements of a list that are also in the other, in their order. */
  function Keep(s: seq<Text>, among: seq<Text>): seq<Text> {
    if s == [] then [] else (if s[0] in among then [s[0]] else []) + Keep(s[1..], among)
  }

  lemma {:induction false} KeepConcat(a: seq<Text>, b: seq<Text>, among: seq<Text>)
    ensures Keep(a + b, among) == Keep(a, among) + Keep(b, among)
  {
    if a == [] {
      assert a + b == b;
    } else {
      KeepConcat(a[1..], b, among);
      assert (a + b)[1..] == a[1..] + b;
      Associate(if a[0] in among then [a[0]] else [], Keep(a[1..], among), Keep(b, among));
    }
  }

  lemma {:induction false} KeepCounts(s: seq<Text>, among: seq<Text>, x: Text)
    ensures multiset(Keep(s, among))[x] == if x in among then multiset(s)[x] else 0
  {
    if s != [] {
      KeepCounts(s[1..], among, x);
      assert s == [s[0]] + s[1..];
    }
  }

  lemma {:induction false} KeepAll(s: seq<Text>, among: seq<Text>)
    requires forall i | 0 <= i < |s| :: s[i] in among
    ensures Keep(s, among) == s
  {
    if s != [] {
      KeepAll(s[1..], among);
      assert s == [s[0]] + s[1..];
    }
  }

  lemma KeptAreThere(s: seq<Text>, among: seq<Text>)
    ensures Keep(Keep(s, among), s) == Keep(s, among)
  {
    forall i | 0 <= i < |Keep(s, among)|
      ensures Keep(s, among)[i] in s
    {
      var x := Keep(s, among)[i];
      KeepCounts(s, among, x);
      assert x in multiset(Keep(s, among));
      assert x in multiset(s);
    }
    KeepAll(Keep(s, among), s);
  }

  lemma InsertKeeps(s: seq<Text>, k: nat, x: Text, among: seq<Text>)
    requires k <= |s| && x !in among
    ensures Keep(InsertedAt(s, k, x), among) == Keep(s, among)
  {
    KeepConcat(s[..k] + [x], s[k..], among);
    KeepConcat(s[..k], s[k..], among);
    assert s == s[..k] + s[k..];
    KeepSkips(s[..k], x, among);
  }

  lemma KeepSkips(s: seq<Text>, x: Text, among: seq<Text>)
    requires x !in among
    ensures Keep(s + [x], among) == Keep(s, among)
  {
    KeepConcat(s, [x], among);
    assert Keep([x], among) == Keep([], among);
  }

  lemma InsertCounts(s: seq<Text>, k: nat, x: Text)
    requires k <= |s|
    ensures multiset(InsertedAt(s, k, x)) == multiset(s) + multiset{x}
  {
    assert s == s[..k] + s[k..];
  }

  /** How often a name occurs after `k` of the incoming names have been handled. */
  ghost function Occurrences(draft: seq<Text>, incoming: seq<Text>, k: nat, x: Text): nat
    requires k <= |incoming|
  {
    if x !in incoming then 0
    else if x in draft then multiset(draft)[x]
    else if x in incoming[..k] then 1 else 0
  }

  ghost predicate Counted(r: seq<Text>, draft: seq<Text>, incoming: seq<Text>, k: nat)
    requires k <= |incoming|
  {
    forall x :: multiset(r)[x] == Occurrences(draft, incoming, k, x)
  }

  lemma CountedStep(before: seq<Text>, after: seq<Text>, draft: seq<Text>, incoming: seq<Text>, k: nat)
    requires k < |incoming| && Counted(before, draft, incoming, k)
    requires multiset(after) == if incoming[k] in before then multiset(before) else multiset(before) + multiset{incoming[k]}
    ensures Counted(after, draft, incoming, k + 1)
    ensures incoming[k] !in before ==> incoming[k] !in draft
  {
    var name := incoming[k];
    assert incoming[..k + 1] == incoming[..k] + [name];
    assert name in before <==> multiset(before)[name] > 0;
    assert name in draft <==> multiset(draft)[name] > 0;
    forall x
      ensures multiset(after)[x] == Occurrences(draft, incoming, k + 1, x)
    {
      assert multiset(before)[x] == Occurrences(draft, incoming, k, x);
    }
  }

  lemma {:induction false} DistinctCounts(s: seq<Text>, x: Text)
    requires Distinct(s)
    ensures multiset(s)[x] == if x in s then 1 else 0
  {
    if s != [] {
      DistinctCounts(s[1..], x);
      assert s == [s[0]] + s[1..];
      assert s[0] !in s[1..];
    }
  }

  /** Without repeated names, the counted result is a permutation of the incoming names. */
  lemma CountedIsPermutation(r: seq<Text>, draft: seq<Text>, incoming: seq<Text>)
    requires Counted(r, draft, incoming, |incoming|) && Distinct(draft) && Distinct(incoming)
    ensures multiset(r) == multiset(incoming)
  {
    assert incoming[..|incoming|] == incoming;
    forall x
      ensures multiset(r)[x] == multiset(incoming)[x]
    {
      DistinctCounts(draft, x);
      DistinctCounts(incoming, x);
      assert multiset(r)[x] == Occurrences(draft, incoming, |incoming|, x);
    }
  }

  lemma ReconcileStep(before: seq<Text>, after: seq<Text>, draft: seq<Text>, incoming: seq<Text>, k: nat, natural: bool)
    requires k < |incoming| && Counted(before, draft, incoming, k)
    requires if incoming[k] in before then after == before else IsInsertion(before, incoming[k], natural, after)
    ensures Counted(after, draft, incoming, k + 1)
    ensures !natural ==> Keep(after, draft) == Keep(before, draft)
  {
    var name := incoming[k];
    if name !in before {
      InsertionEffect(before, name, natural, after);
    }
    CountedStep(before, after, draft, incoming, k);
    if name !in before && !natural {
      var p: nat :| p <= |before| && after == InsertedAt(before, p, name);
      InsertKeeps(before, p, name, draft);
    }
  }

  lemma InsertionEffect(before: seq<Text>, name: Text, natural: bool, after: seq<Text>)
    requires IsInsertion(before, name, natural, after)
    ensures multiset(after) == multiset(before) + multiset{name}
  {
    var p: nat :| p <= |before| && after == if natural then Normalize(InsertedAt(before, p, name)) else InsertedAt(before, p, name);
    InsertCounts(before, p, name);
    NormalizeKeepsShape(InsertedAt(before, p, name));
  }

  method ReconcileTagOrderDraft(draft: seq<Text>, incoming: seq<Text>, natural: bool) returns (r: seq<Text>)
    ensures Counted(r, draft, incoming, |incoming|)
    ensures Distinct(draft) && Distinct(incoming) ==> multiset(r) == multiset(incoming)
    ensures !natural ==> Keep(r, draft) == Keep(draft, incoming)
    ensures natural ==> Normalize(r) == r
  {
    r := Keep(draft, incoming);
    KeptAreThere(draft, incoming);
    forall x
      ensures multiset(r)[x] == Occurrences(draft, incoming, 0, x)
    {
      KeepCounts(draft, incoming, x);
    }
    var k := 0;
    while k < |incoming|
      invariant 0 <= k <= |incoming| && Counted(r, draft, incoming, k)
      invariant !natural ==> Keep(r, draft) == Keep(draft, incoming)
    {
      ghost var before := r;
      if incoming[k] !in r {
        r := InsertNewTagIntoOrder(r, incoming[k], natural);
      }
      ReconcileStep(before, r, draft, incoming, k, natural);
      k := k + 1;
    }
    if natural {
      NormalizeKeepsShape(r);
      NormalizeIdempotent(r);
      r := Normalize(r);
    }
    if Distinct(draft) && Distinct(incoming) {
      CountedIsPermutation(r, draft, incoming);
    }
  }
}
