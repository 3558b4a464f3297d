/** The compaction planner: it hands out groups of files, and no file twice at a time. */
module Planning {
  import opened Options
  import opened Sequences
  import opened Sorting
  import opened Generations

  const MAX_FILE_SIZE := 2048 * 1024 * 1024
  const MAX_POINTS_PER_BLOCK := 1000

  datatype FileStore = FileStore(stats: seq<FileStat>, lastModified: int)

  /** In order, every generation with its own files. */
  ghost predicate Ordered(gens: seq<Generation>) {
    Usable(gens) && SortedIds(gens) && InPlace(gens)
  }

  // ---------------------------------------------------------------- generations

  /** Adds a file to its generation, creating that in its place if needed. */
  method AddFile(gens: seq<Generation>, f: FileStat) returns (next: seq<Generation>)
    requires Ordered(gens)
    ensures Ordered(next) && Bag(next) == Bag(gens) + multiset{f.path}
    ensures forall id :: FilesAt(next, id) == FilesAt(gens, id) + if id == f.gen then [f] else []
  {
    hide Bag, FilesAt, SortedIds, InPlace;
    var k := 0;
    while k < |gens| && gens[k].id < f.gen
      invariant 0 <= k <= |gens| && forall i :: 0 <= i < k ==> gens[i].id < f.gen
    {
      k := k + 1;
    }
    Behind(gens, k, f.gen);
    if k < |gens| && gens[k].id == f.gen {
      var g := Generation(f.gen, gens[k].files + [f]);
      next := gens[k := g];
      BagPut(gens, k, g, f);
      forall id ensures FilesAt(next, id) == FilesAt(gens, id) + if id == f.gen then [f] else [] {
        FilesPut(gens, k, g, f, id);
      }
      OrderedPut(gens, k, g, f);
    } else {
      var g := Generation(f.gen, [f]);
      next := gens[..k] + [g] + gens[k..];
      BagInsert(gens, k, g, f);
      forall id ensures FilesAt(next, id) == FilesAt(gens, id) + if id == f.gen then [f] else [] {
        FilesInsert(gens, k, g, f, id);
      }
      OrderedInsert(gens, k, g, f);
    }
  }

  lemma {:induction false} Behind(gens: seq<Generation>, k: nat, id: int)
    requires SortedIds(gens) && k <= |gens| && (k < |gens| ==> id <= gens[k].id)
    ensures forall i :: k < i < |gens| ==> id < gens[i].id
  {
  }

  lemma {:induction false} FilesPut(gens: seq<Generation>, k: nat, g: Generation, f: FileStat, id: int)
    requires k < |gens| && g == Generation(f.gen, gens[k].files + [f]) && gens[k].id == f.gen
    requires forall i :: k < i < |gens| ==> f.gen < gens[i].id
    ensures FilesAt(gens[k := g], id) == FilesAt(gens, id) + if id == f.gen then [f] else []
  {
    hide FilesAt;
    var p, q := gens[..k], gens[k + 1..];
    assert gens[k := g] == (p + [g]) + q && gens == (p + [gens[k]]) + q;
    FilesAtAppend(p + [g], q, id);
    FilesAtAppend(p + [gens[k]], q, id);
    FilesAtSnoc(p, g, id);
    FilesAtSnoc(p, gens[k], id);
    if id == f.gen {
      FilesElsewhere(q, id);
      Regrouped(FilesAt(p, id), gens[k].files, [f]);
    }
  }

  lemma {:induction false} FilesInsert(gens: seq<Generation>, k: nat, g: Generation, f: FileStat, id: int)
    requires k <= |gens| && g == Generation(f.gen, [f]) && forall i :: k <= i < |gens| ==> f.gen < gens[i].id
    ensures FilesAt(gens[..k] + [g] + gens[k..], id) == FilesAt(gens, id) + if id == f.gen then [f] else []
  {
    hide FilesAt;
    var p, q := gens[..k], gens[k..];
    assert gens == p + q;
    FilesAtAppend(p + [g], q, id);
    FilesAtAppend(p, q, id);
    FilesAtSnoc(p, g, id);
    if id == f.gen {
      FilesElsewhere(q, id);
    }
  }

  lemma {:induction false} OrderedPut(gens: seq<Generation>, k: nat, g: Generation, f: FileStat)
    requires Ordered(gens) && k < |gens| && g == Generation(f.gen, gens[k].files + [f]) && gens[k].id == f.gen
    ensures Ordered(gens[k := g])
  {
  }

  lemma {:induction false} OrderedInsert(gens: seq<Generation>, k: nat, g: Generation, f: FileStat)
    requires Ordered(gens) && k <= |gens| && g == Generation(f.gen, [f])
    requires (forall i :: 0 <= i < k ==> gens[i].id < f.gen) && forall i :: k <= i < |gens| ==> f.gen < gens[i].id
    ensures Ordered(gens[..k] + [g] + gens[k..])
  {
  }

  lemma {:induction false} BagOne(g: Generation)
    ensures Bag([g]) == multiset(PathsIn(g.files))
  {
    PathsSnoc([], g);
    assert [] + [g] == [g] && [] + PathsIn(g.files) == PathsIn(g.files);
  }

  lemma {:induction false} BagSplit(gens: seq<Generation>, k: nat, mid: seq<Generation>, rest: seq<Generation>)
    requires k <= |gens|
    ensures Bag(gens[..k] + mid + rest) == Bag(gens[..k]) + Bag(mid) + Bag(rest)
  {
    hide Bag;
    BagAppend(gens[..k] + mid, rest);
    BagAppend(gens[..k], mid);
  }

  lemma {:induction false} BagPut(gens: seq<Generation>, k: nat, g: Generation, f: FileStat)
    requires k < |gens| && g.files == gens[k].files + [f]
    ensures Bag(gens[k := g]) == Bag(gens) + multiset{f.path}
  {
    hide Bag, PathsIn;
    assert gens[k := g] == gens[..k] + [g] + gens[k + 1..];
    assert gens == gens[..k] + [gens[k]] + gens[k + 1..];
    BagSplit(gens, k, [g], gens[k + 1..]);
    BagSplit(gens, k, [gens[k]], gens[k + 1..]);
    BagOne(g);
    BagOne(gens[k]);
    PathsInSnoc(gens[k].files, f);
  }

  lemma {:induction false} BagInsert(gens: seq<Generation>, k: nat, g: Generation, f: FileStat)
    requires k <= |gens| && g.files == [f]
    ensures Bag(gens[..k] + [g] + gens[k..]) == Bag(gens) + multiset{f.path}
  {
    hide Bag, PathsIn;
    assert gens == gens[..k] + [] + gens[k..];
    BagSplit(gens, k, [g], gens[k..]);
    BagSplit(gens, k, [], gens[k..]);
    BagOne(g);
    assert Bag([]) == multiset{} && PathsIn([f]) == [f.path] by { NoBag(f); }
  }

  lemma {:induction false} NoBag(f: FileStat)
    ensures Bag([]) == multiset{} && PathsIn([f]) == [f.path]
  {
    PathsInSnoc([], f);
    assert [] + [f] == [f];
  }

  // ---------------------------------------------------------------- what a plan may hand out

  /** Each group lists the files of adjacent generations, and no generation is used twice. */
  ghost predicate Planned(groups: seq<Group>, parts: seq<seq<Generation>>, gens: seq<Generation>) {
    && |groups| == |parts| && BagOf(groups) <= Bag(gens)
    && forall k :: 0 <= k < |groups| ==> Adjacent(parts[k], gens) && multiset(groups[k]) == Bag(parts[k])
  }

  /** A plan for the generations in `done`, all of them adjacent generations of `gens`. */
  ghost predicate PlannedFrom(groups: seq<Group>, parts: seq<seq<Generation>>, done: seq<seq<Generation>>,
                              gens: seq<Generation>)
  {
    && |groups| == |parts| && BagOf(groups) <= Bag(Concat(done))
    && forall k :: 0 <= k < |groups| ==> Adjacent(parts[k], gens) && multiset(groups[k]) == Bag(parts[k])
  }

  lemma {:induction false} PlanStart(gens: seq<Generation>)
    ensures PlannedFrom([], [], [], gens)
  {
  }

  lemma {:induction false} PlanSkip(groups: seq<Group>, parts: seq<seq<Generation>>, done: seq<seq<Generation>>,
                                    part: seq<Generation>, gens: seq<Generation>)
    requires PlannedFrom(groups, parts, done, gens)
    ensures PlannedFrom(groups, parts, done + [part], gens)
  {
    hide Bag, BagOf, Concat, Adjacent;
    ConcatSnoc(done, part);
    BagAppend(Concat(done), part);
  }

  lemma {:induction false} PlanTake(groups: seq<Group>, parts: seq<seq<Generation>>, done: seq<seq<Generation>>,
                                    part: seq<Generation>, group: Group, gens: seq<Generation>)
    requires PlannedFrom(groups, parts, done, gens) && Adjacent(part, gens) && multiset(group) == Bag(part)
    ensures PlannedFrom(groups + [group], parts + [part], done + [part], gens)
  {
    hide Bag, BagOf, Concat, Adjacent;
    ConcatSnoc(done, part);
    BagAppend(Concat(done), part);
    BagOfSnoc(groups, group);
  }

  lemma {:induction false} PlanEnd(groups: seq<Group>, parts: seq<seq<Generation>>, done: seq<seq<Generation>>,
                                   gens: seq<Generation>)
    requires PlannedFrom(groups, parts, done, gens) && Bag(Concat(done)) <= Bag(gens)
    ensures Planned(groups, parts, gens)
  {
    hide Bag, BagOf, Concat, Adjacent;
  }

  /** The generations of one group of a level, in pieces that are worth compacting. */
  method LevelPieces(group: seq<Generation>, size: nat, least: nat)
    returns (out: seq<Group>, parts: seq<seq<Generation>>)
    requires size > 0
    ensures Planned(out, parts, group) && parts == Worthy(ChunksOf(group, size), least)
  {
    hide *;
    var chunks := Chunk(group, size);
    out, parts := [], [];
    PlanStart(group);
    WorthyNone(least);
    assert chunks[..0] == [];
    for k := 0 to |chunks|
      invariant PlannedFrom(out, parts, chunks[..k], group) && parts == Worthy(chunks[..k], least)
    {
      assert chunks[..k + 1] == chunks[..k] + [chunks[k]];
      PartAdjacent(chunks, k);
      FilesOf(chunks[k]);
      WorthySnoc(chunks[..k], chunks[k], least);
      PlanSkip(out, parts, chunks[..k], chunks[k], group);
      PlanTake(out, parts, chunks[..k], chunks[k], PathsOf(chunks[k]), group);
      if |chunks[k]| < least && !AnyTombstoned(chunks[k]) {
        continue;
      }
      out := out + [PathsOf(chunks[k])];
      parts := parts + [chunks[k]];
    }
    assert chunks[..|chunks|] == chunks;
    PlanEnd(out, parts, chunks, group);
  }

  lemma {:induction false} WorthyNone(least: nat)
    ensures Worthy([], least) == []
  {
  }

  lemma {:induction false} FilesOf(gens: seq<Generation>)
    ensures multiset(PathsOf(gens)) == Bag(gens)
  {
  }

  lemma {:induction false} NothingPlanned(gens: seq<Generation>)
    ensures BagOf([]) == multiset{} && Bag([]) == multiset{} && Concat<Generation>([]) == [] && Planned([], [], gens)
  {
  }

  /** A plan for one part of a partition of the generations is a plan for the rest of them as well. */
  lemma {:induction false} PlannedWithin(out: seq<Group>, parts: seq<seq<Generation>>, group: seq<Generation>,
                                         gens: seq<Generation>)
    requires Planned(out, parts, group) && Adjacent(group, gens)
    ensures forall k :: 0 <= k < |out| ==> Adjacent(parts[k], gens) && multiset(out[k]) == Bag(parts[k])
  {
    hide Bag, BagOf, Adjacent;
    forall k | 0 <= k < |out| ensures Adjacent(parts[k], gens) {
      AdjacentTrans(parts[k], group, gens);
    }
  }

  /** The groups of adjacent generations of one level. */
  method LevelGroups(gens: seq<Generation>, level: nat)
    returns (out: seq<seq<Generation>>, ghost runs: seq<seq<Generation>>)
    requires Usable(gens)
    ensures Runs(runs, gens) && out == OfLevel(runs, level)
    ensures Bag(Concat(out)) <= Bag(gens)
    ensures forall k :: 0 <= k < |out| ==> Adjacent(out[k], gens)
  {
    hide *;
    var groups := GroupByLevel(gens);
    runs := groups;
    out := [];
    RunsUsable(groups, gens);
    NothingPlanned(gens);
    NoneOfLevel(level);
    assert groups[..0] == [];
    for k := 0 to |groups|
      invariant Bag(Concat(out)) <= Bag(Concat(groups[..k])) && AllUsable(groups[..k])
      invariant out == OfLevel(groups[..k], level)
      invariant forall j :: 0 <= j < |out| ==> Adjacent(out[j], gens)
    {
      assert groups[..k + 1] == groups[..k] + [groups[k]];
      PartAdjacent(groups, k);
      AdjacentUsable(groups[k], gens);
      OfLevelSnoc(groups[..k], groups[k], level);
      BagNext(groups[..k], groups[k]);
      MaxLevelExactly(groups[k], level);
      if MaxLevel(groups[k]) == level {
        BagNext(out, groups[k]);
        out := out + [groups[k]];
      }
    }
    assert groups[..|groups|] == groups;
  }

  /** The generations in maximal groups, one after the other. */
  ghost predicate Runs(runs: seq<seq<Generation>>, gens: seq<Generation>)
    requires Usable(gens)
  {
    Concat(runs) == gens && Grouped(gens, runs) && AllUsable(runs)
  }

  lemma {:induction false} RunsUsable(runs: seq<seq<Generation>>, gens: seq<Generation>)
    requires Usable(gens) && Concat(runs) == gens && Grouped(gens, runs)
    ensures Runs(runs, gens) && AllUsable(runs)
  {
    hide Concat, Grouped, Adjacent, Usable;
    forall k | 0 <= k < |runs| ensures Usable(runs[k]) {
      PartAdjacent(runs, k);
      AdjacentUsable(runs[k], gens);
    }
  }

  lemma {:induction false} BagNext(done: seq<seq<Generation>>, part: seq<Generation>)
    ensures Bag(Concat(done + [part])) == Bag(Concat(done)) + Bag(part)
  {
    hide Bag, Concat;
    ConcatSnoc(done, part);
    BagAppend(Concat(done), part);
  }

  lemma {:induction false} NoneOfLevel(level: nat)
    ensures OfLevel([], level) == [] && AllUsable([])
  {
  }

  lemma {:induction false} AdjacentUsable(part: seq<Generation>, whole: seq<Generation>)
    requires Adjacent(part, whole) && Usable(whole)
    ensures Usable(part)
  {
    var lo :| LiesAt(part, whole, lo);
    forall i | 0 <= i < |part| ensures part[i].files != [] {
      assert part[i] == whole[lo + i];
    }
  }

  /** One more group's pieces in a plan. */
  lemma {:induction false} PlannedMore(out: seq<Group>, parts: seq<seq<Generation>>, done: seq<seq<Generation>>,
                                       group: seq<Generation>, more: seq<Group>, pieces: seq<seq<Generation>>,
                                       gens: seq<Generation>)
    requires PlannedFrom(out, parts, done, gens) && Planned(more, pieces, group) && Adjacent(group, gens)
    ensures PlannedFrom(out + more, parts + pieces, done + [group], gens)
  {
    hide Bag, BagOf, Adjacent, Concat;
    BagOfAppend(out, more);
    BagNext(done, group);
    PlannedWithin(more, pieces, group, gens);
  }

  /** No generation is above the level: below level 4 no sequence number is larger. */
  ghost predicate Below(part: seq<Generation>, level: nat) {
    forall i :: 0 <= i < |part| ==> part[i].files != [] && (level < 4 ==> part[i].files[0].sequence <= level)
  }

  lemma {:induction false} PiecesBelow(pieces: seq<seq<Generation>>, group: seq<Generation>, level: nat)
    requires Usable(group) && TopLevel(group, level) && forall k :: 0 <= k < |pieces| ==> Adjacent(pieces[k], group)
    ensures forall k :: 0 <= k < |pieces| ==> Below(pieces[k], level)
  {
    forall k | 0 <= k < |pieces| ensures Below(pieces[k], level) {
      var lo :| LiesAt(pieces[k], group, lo);
      forall i | 0 <= i < |pieces[k]|
        ensures pieces[k][i].files != [] && (level < 4 ==> pieces[k][i].files[0].sequence <= level) {
        assert pieces[k][i] == group[lo + i];
        assert level < 4 ==> Sequence(group[lo + i]) <= level;
      }
    }
  }

  lemma {:induction false} PlannedAdjacent(out: seq<Group>, parts: seq<seq<Generation>>, gens: seq<Generation>)
    requires Planned(out, parts, gens)
    ensures |out| == |parts| && BagOf(out) <= Bag(gens) && forall k :: 0 <= k < |parts| ==> Adjacent(parts[k], gens)
  {
  }

  ghost predicate AllBelow(parts: seq<seq<Generation>>, level: nat) {
    forall k :: 0 <= k < |parts| ==> Below(parts[k], level)
  }

  lemma {:induction false} AllBelowMore(parts: seq<seq<Generation>>, pieces: seq<seq<Generation>>, level: nat)
    requires forall k :: 0 <= k < |pieces| ==> Below(pieces[k], level)
    ensures AllBelow([], level) && (AllBelow(parts, level) ==> AllBelow(parts + pieces, level))
  {
    hide Below;
  }

  /** The pieces of all groups of a level. */
  method PlanPieces(gens: seq<Generation>, level: nat, size: nat, least: nat)
    returns (out: seq<Group>, parts: seq<seq<Generation>>, ghost runs: seq<seq<Generation>>)
    requires Usable(gens) && size > 0
    ensures Planned(out, parts, gens) && AllBelow(parts, level)
    ensures Runs(runs, gens) && parts == LevelParts(OfLevel(runs, level), size, least)
  {
    hide *;
    var groups;
    groups, runs := LevelGroups(gens, level);
    out, parts := [], [];
    PlanStart(gens);
    AllBelowMore([], [], level);
    NoLevelParts(size, least);
    assert groups[..0] == [];
    for k := 0 to |groups|
      invariant PlannedFrom(out, parts, groups[..k], gens) && AllBelow(parts, level)
      invariant parts == LevelParts(groups[..k], size, least)
    {
      assert groups[..k + 1] == groups[..k] + [groups[k]];
      var more, pieces := LevelPieces(groups[k], size, least);
      PlannedMore(out, parts, groups[..k], groups[k], more, pieces, gens);
      LevelPartsSnoc(groups[..k], groups[k], size, least);
      PlannedAdjacent(more, pieces, groups[k]);
      assert groups[k] in groups;
      PiecesBelow(pieces, groups[k], level);
      AllBelowMore(parts, pieces, level);
      out, parts := out + more, parts + pieces;
    }
    assert groups[..|groups|] == groups;
    PlanEnd(out, parts, groups, gens);
  }

  lemma {:induction false} NoLevelParts(size: nat, least: nat)
    requires size > 0
    ensures LevelParts([], size, least) == []
  {
  }

  /** Whole groups of level 4 that are worth rewriting. */
  method OptimizePieces(gens: seq<Generation>)
    returns (out: seq<Group>, parts: seq<seq<Generation>>, ghost runs: seq<seq<Generation>>)
    requires Usable(gens)
    ensures Planned(out, parts, gens)
    ensures Runs(runs, gens) && parts == Worthy(OfLevel(runs, 4), 4)
  {
    hide *;
    var groups;
    groups, runs := LevelGroups(gens, 4);
    out, parts := [], [];
    PlanStart(gens);
    WorthyNone(4);
    assert groups[..0] == [];
    for k := 0 to |groups|
      invariant PlannedFrom(out, parts, groups[..k], gens) && parts == Worthy(groups[..k], 4)
    {
      assert groups[..k + 1] == groups[..k] + [groups[k]];
      FilesOf(groups[k]);
      WorthySnoc(groups[..k], groups[k], 4);
      PlanSkip(out, parts, groups[..k], groups[k], gens);
      PlanTake(out, parts, groups[..k], groups[k], PathsOf(groups[k]), gens);
      if |groups[k]| < 4 && !AnyTombstoned(groups[k]) {
        continue;
      }
      out := out + [PathsOf(groups[k])];
      parts := parts + [groups[k]];
    }
    assert groups[..|groups|] == groups;
    PlanEnd(out, parts, groups, gens);
  }

  // ---------------------------------------------------------------- full and level-4 plans

  /** The generation is too large to be worth compacting, and its first block is full. */
  predicate Maxed(g: Generation)
    requires g.files != []
  {
    SizeOf(g.files) > MAX_FILE_SIZE && g.files[0].firstBlock == MAX_POINTS_PER_BLOCK
  }

  lemma {:induction false} BagPrefix(gens: seq<Generation>, i: nat)
    requires i < |gens|
    ensures Bag(gens[..i + 1]) == Bag(gens[..i]) + multiset(PathsIn(gens[i].files))
    ensures Bag(gens[..i + 1]) <= Bag(gens)
  {
    hide Bag, PathsIn;
    assert gens[..i + 1] == gens[..i] + [gens[i]];
    BagAppend(gens[..i], [gens[i]]);
    BagOne(gens[i]);
    assert gens == gens[..i + 1] + gens[i + 1..];
    BagAppend(gens[..i + 1], gens[i + 1..]);
  }

  /** A full compaction leaves a generation out: it is maxed out, untouched, and nothing small follows. */
  ghost predicate LeftOut(gens: seq<Generation>, i: nat)
    requires Usable(gens) && i < |gens|
  {
    |gens| > 2 && Maxed(gens[i]) && !Tombstoned(gens[i]) && !(i + 1 < |gens| && Sequence(gens[i + 1]) <= 3)
  }

  ghost function Included(gens: seq<Generation>, n: nat): seq<Generation>
    requires Usable(gens) && n <= |gens|
  {
    if n == 0 then [] else Included(gens, n - 1) + if LeftOut(gens, n - 1) then [] else [gens[n - 1]]
  }

  lemma {:induction false} IncludedBag(gens: seq<Generation>, n: nat)
    requires Usable(gens) && n <= |gens|
    ensures Bag(Included(gens, n)) <= Bag(gens[..n])
  {
    hide Bag, LeftOut, PathsIn;
    if n == 0 {
      assert gens[..0] == [];
    } else {
      hide Included, Usable;
      IncludedBag(gens, n - 1);
      IncludedNext(gens, n - 1);
      BagPrefix(gens, n - 1);
      BagAppend(Included(gens, n - 1), [gens[n - 1]]);
      BagOne(gens[n - 1]);
    }
  }

  lemma {:induction false} IncludedNone(gens: seq<Generation>)
    requires Usable(gens)
    ensures Included(gens, 0) == []
  {
  }

  lemma {:induction false} IncludedNext(gens: seq<Generation>, n: nat)
    requires Usable(gens) && n < |gens|
    ensures Included(gens, n + 1) == if LeftOut(gens, n) then Included(gens, n) else Included(gens, n) + [gens[n]]
  {
    hide LeftOut;
  }

  /** The files of a full compaction: those of all generations that are not left out. */
  method FullFiles(gens: seq<Generation>) returns (files: seq<Path>, count: nat)
    requires Usable(gens)
    ensures files == PathsOf(Included(gens, |gens|)) && count == |Included(gens, |gens|)|
    ensures multiset(files) <= Bag(gens)
  {
    hide Bag, PathsIn, PathsOf, SizeOf, Tombstoned, Maxed, Level, Included;
    files, count := [], 0;
    IncludedNone(gens);
    NothingPlanned(gens);
    NoGroups();
    for i := 0 to |gens|
      invariant files == PathsOf(Included(gens, i)) && count == |Included(gens, i)|
    {
      var skip := |gens| > 2 && Maxed(gens[i]) && !Tombstoned(gens[i]);
      if i < |gens| - 1 {
        LevelExactly(gens[i + 1], 3);
      }
      if i < |gens| - 1 && Level(gens[i + 1]) <= 3 {
        skip := false;
      }
      IncludedNext(gens, i);
      PathsSnoc(Included(gens, i), gens[i]);
      if skip {
        continue;
      }
      files := files + PathsIn(gens[i].files);
      count := count + 1;
    }
    assert gens[..|gens|] == gens;
    IncludedBag(gens, |gens|);
    FilesOf(Included(gens, |gens|));
  }

  /** Larger than 2 GiB and with a first block of 1000 points, or full: at least as large and without tombstones. */
  lemma {:induction false} LargeExactly(g: Generation)
    requires g.files != []
    ensures Maxed(g) <==> Bytes(g.files) > 0x8000_0000 && g.files[0].firstBlock == 1000
    ensures Filled(g) <==> Bytes(g.files) >= 0x8000_0000 && g.files[0].firstBlock == 1000 && !Marked(g)
  {
    hide SizeOf, Bytes, Tombstoned, Marked;
    SizeExactly(g.files);
    MarkedExactly(g);
  }

  /** The generation stays as it is in a full compaction. */
  ghost predicate Stays(gens: seq<Generation>, i: nat)
    requires Usable(gens) && i < |gens|
  {
    && |gens| > 2 && Bytes(gens[i].files) > 0x8000_0000 && gens[i].files[0].firstBlock == 1000 && !Marked(gens[i])
    && (i + 1 < |gens| ==> gens[i + 1].files[0].sequence >= 4)
  }

  /** What a full compaction takes: every generation but those that stay. */
  lemma {:induction false} IncludedExactly(gens: seq<Generation>, n: nat, g: Generation)
    requires Usable(gens) && n <= |gens|
    ensures g in Included(gens, n) <==> exists i :: 0 <= i < n && gens[i] == g && !Stays(gens, i)
  {
    if n > 0 {
      hide LeftOut, Stays;
      IncludedExactly(gens, n - 1, g);
      LeftOutExactly(gens, n - 1);
    }
  }

  lemma {:induction false} LeftOutExactly(gens: seq<Generation>, i: nat)
    requires Usable(gens) && i < |gens|
    ensures LeftOut(gens, i) <==> Stays(gens, i)
  {
    hide Bytes, Tombstoned, Marked, Maxed;
    LargeExactly(gens[i]);
    MarkedExactly(gens[i]);
  }

  /** A step up ends where the bytes drop below half of those before, without tombstones. */
  lemma {:induction false} DropsExactly(gens: seq<Generation>, i: nat)
    requires i < |gens|
    ensures Shrinks(gens, i) <==> i > 0 && Bytes(gens[i].files) * 2 < Bytes(gens[i - 1].files)
    ensures Drops(gens, i) <==> i > 0 && Bytes(gens[i].files) * 2 < Bytes(gens[i - 1].files) && !Marked(gens[i])
  {
    hide SizeOf, Bytes, Tombstoned, Marked;
    MarkedExactly(gens[i]);
    SizeExactly(gens[i].files);
    if i > 0 {
      SizeExactly(gens[i - 1].files);
    }
  }

  /** A generation that is less than half as large as the one before it. */
  predicate Shrinks(gens: seq<Generation>, i: nat)
    requires i < |gens|
  {
    i > 0 && SizeOf(gens[i].files) * 2 < SizeOf(gens[i - 1].files)
  }

  /** A smaller generation that ends the search: it has no tombstones. */
  predicate Drops(gens: seq<Generation>, i: nat)
    requires i < |gens|
  {
    Shrinks(gens, i) && !Tombstoned(gens[i])
  }

  /** The level-4 generations end at `end`. */
  ghost predicate Upper(gens: seq<Generation>, end: nat)
    requires Usable(gens)
  {
    && end <= |gens| && (forall i :: 0 <= i < end ==> Sequence(gens[i]) >= 4)
    && (end < |gens| ==> Sequence(gens[end]) <= 3)
  }

  /**
   * Where the level-4 generations end, and where those start that are not skipped for their size: behind the last
   * maxed-out one, or at the first one that is much smaller than the one before it. None is skipped from the
   * first one with tombstones on.
   */
  ghost predicate Bounds(gens: seq<Generation>, start: nat, end: nat)
    requires Usable(gens)
  {
    && start <= end && Upper(gens, end)
    && (forall i :: 0 <= i < start ==> !Tombstoned(gens[i]) && !Shrinks(gens, i))
    && (start > 0 ==> Maxed(gens[start - 1]) || (start < end && Drops(gens, start)))
    && (forall i :: start <= i < end && (Maxed(gens[i]) || Shrinks(gens, i)) ==>
          AnyTombstoned(gens[..i + 1]) || Drops(gens, start))
  }

  /** The start found when the first `i` generations were looked at. */
  ghost predicate Scanned(gens: seq<Generation>, i: nat, start: nat, tombstones: bool)
    requires Usable(gens)
  {
    && start <= i <= |gens| && (tombstones ==> AnyTombstoned(gens[..i]))
    && (forall k :: 0 <= k < (if tombstones then start else i) ==> !Tombstoned(gens[k]) && !Shrinks(gens, k))
    && (start > 0 ==> Maxed(gens[start - 1]))
    && (forall k :: start <= k < i && (Maxed(gens[k]) || Shrinks(gens, k)) ==> AnyTombstoned(gens[..k + 1]))
  }

  lemma {:induction false} ScanStart(gens: seq<Generation>)
    requires Usable(gens)
    ensures Scanned(gens, 0, 0, false)
  {
  }

  lemma {:induction false} ScanNext(gens: seq<Generation>, i: nat, start: nat, tombstones: bool)
    requires Usable(gens) && Scanned(gens, i, start, tombstones) && i < |gens|
    ensures tombstones || Tombstoned(gens[i]) ==> Scanned(gens, i + 1, start, true)
    ensures !tombstones && !Tombstoned(gens[i]) && !Shrinks(gens, i) ==>
              Scanned(gens, i + 1, if Maxed(gens[i]) then i + 1 else start, false)
  {
    hide Tombstoned, AnyTombstoned, Shrinks, Maxed;
    TombstonesNext(gens, i);
    forall k | start <= k < i + 1 && (Maxed(gens[k]) || Shrinks(gens, k)) && (tombstones || Tombstoned(gens[i]))
      ensures AnyTombstoned(gens[..k + 1])
    {
    }
  }

  lemma {:induction false} ScanBreak(gens: seq<Generation>, i: nat, start: nat, end: nat)
    requires Usable(gens) && Scanned(gens, i, start, false) && Upper(gens, end) && i < end && Drops(gens, i)
    ensures Bounds(gens, i, end)
  {
    hide Tombstoned, AnyTombstoned, Shrinks, Maxed, Level;
  }

  lemma {:induction false} ScanEnd(gens: seq<Generation>, start: nat, end: nat, tombstones: bool)
    requires Usable(gens) && Upper(gens, end) && Scanned(gens, end, start, tombstones)
    ensures Bounds(gens, start, end)
  {
    hide Tombstoned, AnyTombstoned, Shrinks, Maxed, Level;
  }

  /** There is one such pair of bounds. */
  lemma {:induction false} BoundsUnique(gens: seq<Generation>, s1: nat, e1: nat, s2: nat, e2: nat)
    requires Usable(gens) && Bounds(gens, s1, e1) && Bounds(gens, s2, e2)
    ensures s1 == s2 && e1 == e2
  {
    hide Level, Shrinks, Drops, Tombstoned, AnyTombstoned, Maxed;
    assert e1 == e2;
    NotBefore(gens, s1, s2, e1);
    NotBefore(gens, s2, s1, e1);
  }

  lemma {:induction false} NotBefore(gens: seq<Generation>, s1: nat, s2: nat, end: nat)
    requires Usable(gens) && Bounds(gens, s1, end) && Bounds(gens, s2, end)
    ensures s1 >= s2
  {
    hide Level, Shrinks, Tombstoned, Maxed;
    if s1 < s2 {
      assert !Shrinks(gens, s1);
      assert AnyTombstoned(gens[..s2]) || AnyTombstoned(gens[..s2 + 1]) by {
        if Maxed(gens[s2 - 1]) {
          assert s1 <= s2 - 1 < end;
        }
      }
      assert false;
    }
  }

  method FindBounds(gens: seq<Generation>) returns (start: nat, end: nat)
    requires Usable(gens)
    ensures Bounds(gens, start, end)
  {
    hide SizeOf, Level, Tombstoned, Maxed, Scanned, Bounds;
    start, end := 0, 0;
    while end < |gens| && Level(gens[end]) > 3
      invariant end <= |gens| && forall i :: 0 <= i < end ==> Sequence(gens[i]) >= 4
    {
      LevelExactly(gens[end], 4);
      end := end + 1;
    }
    if end < |gens| {
      LevelExactly(gens[end], 3);
    }
    var tombstones := false;
    ScanStart(gens);
    for i := 0 to end
      invariant Scanned(gens, i, start, tombstones)
    {
      ScanNext(gens, i, start, tombstones);
      if Tombstoned(gens[i]) {
        tombstones := true;
      }
      if tombstones {
        continue;
      }
      ghost var before := start;
      if Maxed(gens[i]) {
        start := i + 1;
      }
      if i > 0 && SizeOf(gens[i].files) * 2 < SizeOf(gens[i - 1].files) {
        start := i;
        ScanBreak(gens, i, before, end);
        return;
      }
    }
    ScanEnd(gens, start, end, tombstones);
  }

  lemma {:induction false} TombstonesNext(gens: seq<Generation>, i: nat)
    requires i < |gens|
    ensures AnyTombstoned(gens[..i + 1]) <==> AnyTombstoned(gens[..i]) || Tombstoned(gens[i])
  {
    hide Tombstoned;
    var a, b := gens[..i], gens[..i + 1];
    if AnyTombstoned(a) {
      var k :| 0 <= k < |a| && Tombstoned(a[k]);
      assert b[k] == a[k];
    }
    if AnyTombstoned(b) {
      var k :| 0 <= k < |b| && Tombstoned(b[k]);
      assert k < i ==> a[k] == b[k];
    }
    assert b[i] == gens[i];
  }

  /** A generation that fills its files, full blocks and no tombstones. */
  predicate Filled(g: Generation)
    requires g.files != []
  {
    SizeOf(g.files) >= MAX_FILE_SIZE && g.files[0].firstBlock == MAX_POINTS_PER_BLOCK && !Tombstoned(g)
  }

  ghost function FilledIn(gens: seq<Generation>, i: nat, hi: nat): (n: nat)
    requires Usable(gens) && i <= hi <= |gens|
    ensures n <= hi - i
  {
    if i == hi then 0 else FilledIn(gens, i, hi - 1) + if Filled(gens[hi - 1]) then 1 else 0
  }

  ghost predicate Lower(gens: seq<Generation>, i: nat, hi: nat)
    requires Usable(gens) && i <= hi <= |gens|
  {
    exists j :: i <= j < hi && Sequence(gens[j]) <= 3
  }

  /** One step: as many generations are passed over as are filled, and all if a lower level is among them. */
  method ScanStep(gens: seq<Generation>, i: nat, hi: nat) returns (startIndex: nat, skip: bool)
    requires Usable(gens) && i <= hi <= |gens|
    ensures i <= startIndex <= hi
    ensures skip <==> Lower(gens, i, hi)
    ensures !skip ==> startIndex == i + FilledIn(gens, i, hi)
  {
    hide SizeOf, Level, Tombstoned;
    startIndex, skip := i, false;
    for j := i to hi
      invariant i <= startIndex <= j && forall k :: i <= k < j ==> Sequence(gens[k]) >= 4
      invariant startIndex == i + FilledIn(gens, i, j)
    {
      LevelExactly(gens[j], 3);
      if Level(gens[j]) <= 3 {
        skip := true;
        break;
      }
      if SizeOf(gens[j].files) >= MAX_FILE_SIZE && gens[j].files[0].firstBlock == MAX_POINTS_PER_BLOCK
          && !Tombstoned(gens[j]) {
        startIndex := startIndex + 1;
      }
    }
  }

  /** The groups of `step` generations from `i` on, each without as many leading ones as are filled. */
  ghost function StepsFrom(gens: seq<Generation>, step: nat, i: nat): seq<seq<Generation>>
    requires Usable(gens) && step > 0
    decreases |gens| - i
  {
    if i >= |gens| then []
    else var hi := if i + step < |gens| then i + step else |gens|;
         var lo := i + FilledIn(gens, i, hi);
         (if !Lower(gens, i, hi) && lo < hi then [gens[lo..hi]] else []) + StepsFrom(gens, step, i + step)
  }

  ghost function Steps(gens: seq<Generation>, step: nat): seq<seq<Generation>>
    requires Usable(gens) && (step > 0 || gens == [])
  {
    if gens == [] then [] else StepsFrom(gens, step, 0)
  }

  /** The groups cut off the first `i` generations. */
  ghost predicate CutOff(groups: seq<seq<Generation>>, gens: seq<Generation>, step: nat, i: nat)
    requires Usable(gens) && (step > 0 || gens == [])
  {
    && Bag(Concat(groups)) <= Bag(gens[..if i < |gens| then i else |gens|])
    && (forall k :: 0 <= k < |groups| ==> Adjacent(groups[k], gens) && 0 < |groups[k]| <= step)
    && if gens == [] then groups == [] else groups + StepsFrom(gens, step, i) == StepsFrom(gens, step, 0)
  }

  lemma {:induction false} CutStart(gens: seq<Generation>, step: nat)
    requires Usable(gens) && (step > 0 || gens == [])
    ensures CutOff([], gens, step, 0)
  {
    hide StepsFrom, Adjacent;
    assert gens[..0] == [] && (gens != [] ==> [] + StepsFrom(gens, step, 0) == StepsFrom(gens, step, 0));
    NothingPlanned(gens);
  }

  lemma {:induction false} CutEnd(groups: seq<seq<Generation>>, gens: seq<Generation>, step: nat, i: nat)
    requires Usable(gens) && (step > 0 || gens == []) && i >= |gens| && CutOff(groups, gens, step, i)
    ensures groups == Steps(gens, step) && Bag(Concat(groups)) <= Bag(gens)
    ensures forall k :: 0 <= k < |groups| ==> Adjacent(groups[k], gens) && 0 < |groups[k]| <= step
  {
    hide Bag, Concat, Adjacent;
    assert gens[..|gens|] == gens && groups + [] == groups;
  }

  lemma {:induction false} CutNext(groups: seq<seq<Generation>>, gens: seq<Generation>, step: nat, i: nat, lo: nat,
                                   hi: nat, skip: bool)
    requires Usable(gens) && step > 0 && i < |gens| && CutOff(groups, gens, step, i)
    requires hi == (if i + step < |gens| then i + step else |gens|) && i <= lo <= hi
    requires (skip <==> Lower(gens, i, hi)) && (!skip ==> lo == i + FilledIn(gens, i, hi))
    ensures CutOff(if !skip && lo < hi then groups + [gens[lo..hi]] else groups, gens, step, i + step)
  {
    hide Bag, Concat, Adjacent, Lower, FilledIn;
    BagMiddle(gens, i, lo, hi);
    SliceAdjacent(gens, lo, hi);
    BagNext(groups, gens[lo..hi]);
    StepsNext(groups, gens, step, i, lo, hi, skip);
  }

  lemma {:induction false} StepsNext(groups: seq<seq<Generation>>, gens: seq<Generation>, step: nat, i: nat, lo: nat,
                                     hi: nat, skip: bool)
    requires Usable(gens) && step > 0 && i < |gens|
    requires hi == (if i + step < |gens| then i + step else |gens|) && i <= lo <= hi
    requires (skip <==> Lower(gens, i, hi)) && (!skip ==> lo == i + FilledIn(gens, i, hi))
    ensures groups + StepsFrom(gens, step, i) ==
            (if !skip && lo < hi then groups + [gens[lo..hi]] else groups) + StepsFrom(gens, step, i + step)
  {
    hide Lower, FilledIn, Usable;
    var rest := StepsFrom(gens, step, i + step);
    assert StepsFrom(gens, step, i) == (if !skip && lo < hi then [gens[lo..hi]] else []) + rest;
    hide StepsFrom;
    if !skip && lo < hi {
      Regrouped(groups, [gens[lo..hi]], rest);
    } else {
      assert [] + rest == rest;
    }
  }

  /** Groups of up to `step` adjacent generations. */
  method StepGroups(gens: seq<Generation>, step: nat) returns (groups: seq<seq<Generation>>)
    requires Usable(gens) && (step > 0 || gens == [])
    ensures groups == Steps(gens, step) && Bag(Concat(groups)) <= Bag(gens)
    ensures forall k :: 0 <= k < |groups| ==> Adjacent(groups[k], gens) && 0 < |groups[k]| <= step
  {
    hide *;
    groups := [];
    CutStart(gens, step);
    var i := 0;
    while i < |gens|
      invariant CutOff(groups, gens, step, i)
      decreases |gens| - i
    {
      var endIndex := if i + step < |gens| then i + step else |gens|;
      var startIndex, skip := ScanStep(gens, i, endIndex);
      CutNext(groups, gens, step, i, startIndex, endIndex, skip);
      if !skip && endIndex - startIndex > 0 {
        groups := groups + [gens[startIndex..endIndex]];
      }
      i := i + step;
    }
    CutEnd(groups, gens, step, i);
  }

  lemma {:induction false} BagMiddle(gens: seq<Generation>, i: nat, j: nat, k: nat)
    requires i <= j <= k <= |gens|
    ensures Bag(gens[..i]) + Bag(gens[j..k]) <= Bag(gens[..k])
  {
    hide Bag;
    assert gens[..k] == gens[..i] + gens[i..j] + gens[j..k];
    BagSplit(gens, i, gens[i..j], gens[j..k]);
  }

  predicate LexLess(a: Path, b: Path) {
    if b == "" then false
    else if a == "" then true
    else a[0] < b[0] || (a[0] == b[0] && LexLess(a[1..], b[1..]))
  }

  ghost predicate LexSorted(paths: seq<Path>) {
    SortedBy(paths, LexLess)
  }

  lemma {:induction false} LexOrder()
    ensures Order(LexLess)
  {
    hide LexLess;
    forall a, b | LexLess(a, b) ensures !LexLess(b, a) {
      LexOneWay(a, b);
    }
    forall a, b, c | !LexLess(b, a) && !LexLess(c, b) ensures !LexLess(c, a) {
      LexTrans(a, b, c);
    }
  }

  /** Sorting the paths of a group. */
  method SortPaths(paths: seq<Path>) returns (out: seq<Path>)
    ensures LexSorted(out) && multiset(out) == multiset(paths)
  {
    hide LexLess;
    LexOrder();
    out := Sort(paths, LexLess);
  }

  lemma {:induction false} LexTrans(a: Path, b: Path, c: Path)
    requires !LexLess(b, a) && !LexLess(c, b)
    ensures !LexLess(c, a)
  {
    if a != "" && b != "" && c != "" && a[0] == b[0] == c[0] {
      LexTrans(a[1..], b[1..], c[1..]);
    }
  }

  lemma {:induction false} LexOneWay(a: Path, b: Path)
    requires LexLess(a, b)
    ensures !LexLess(b, a)
  {
    if a != "" && b != "" && a[0] == b[0] {
      LexOneWay(a[1..], b[1..]);
    }
  }

  ghost predicate AllSorted(groups: seq<Group>) {
    forall k :: 0 <= k < |groups| ==> LexSorted(groups[k])
  }

  lemma {:induction false} AllSortedMore(groups: seq<Group>, g: Group)
    ensures AllSorted([]) && (AllSorted(groups) && LexSorted(g) ==> AllSorted(groups + [g]))
  {
    hide LexSorted;
  }

  /** The sorted files of the groups that can be compacted. */
  method StepPieces(gens: seq<Generation>, step: nat) returns (out: seq<Group>, parts: seq<seq<Generation>>)
    requires Usable(gens) && (step > 0 || gens == [])
    ensures Planned(out, parts, gens) && AllSorted(out) && parts == Worthy(Steps(gens, step), 2)
    ensures forall k :: 0 <= k < |parts| ==> |parts[k]| <= step
  {
    hide *;
    var groups := StepGroups(gens, step);
    out, parts := [], [];
    PlanStart(gens);
    WorthyNone(2);
    AllSortedMore([], []);
    assert groups[..0] == [];
    for k := 0 to |groups|
      invariant PlannedFrom(out, parts, groups[..k], gens) && parts == Worthy(groups[..k], 2) && AllSorted(out)
    {
      assert groups[..k + 1] == groups[..k] + [groups[k]];
      WorthySnoc(groups[..k], groups[k], 2);
      PlanSkip(out, parts, groups[..k], groups[k], gens);
      if |groups[k]| < 2 && !AnyTombstoned(groups[k]) {
        continue;
      }
      FilesOf(groups[k]);
      var sorted := SortPaths(PathsOf(groups[k]));
      PlanTake(out, parts, groups[..k], groups[k], sorted, gens);
      AllSortedMore(out, sorted);
      out := out + [sorted];
      parts := parts + [groups[k]];
    }
    assert groups[..|groups|] == groups;
    PlanEnd(out, parts, groups, gens);
    forall k | 0 <= k < |parts| ensures |parts[k]| <= step {
      assert parts[k] in parts;
    }
  }

  /** The one group of a full compaction, if it has more than one file and generation. */
  method FullPlan(gens: seq<Generation>) returns (out: seq<Group>)
    requires Usable(gens)
    ensures var inc := Included(gens, |gens|);
            && BagOf(out) <= Bag(gens) && AllSorted(out)
            && |out| == (if |PathsOf(inc)| > 1 && |inc| > 1 then 1 else 0)
            && (|out| == 1 ==> multiset(out[0]) == BagOf(out) == Bag(inc))
  {
    hide *;
    var files, count := FullFiles(gens);
    ghost var inc := Included(gens, |gens|);
    FilesOf(inc);
    NothingPlanned(gens);
    AllSortedMore([], []);
    if |files| <= 1 || count <= 1 {
      return [];
    }
    files := SortPaths(files);
    AllSortedMore([], files);
    OneGroup(files);
    assert [] + [files] == [files];
    return [files];
  }

  /** The generations of a part are of level 4. */
  ghost predicate Above(part: seq<Generation>) {
    forall i :: 0 <= i < |part| ==> part[i].files != [] && part[i].files[0].sequence >= 4
  }

  lemma {:induction false} PartsAbove(gens: seq<Generation>, start: nat, end: nat, parts: seq<seq<Generation>>)
    requires Usable(gens) && Bounds(gens, start, end)
    requires forall k :: 0 <= k < |parts| ==> Adjacent(parts[k], gens[start..end])
    ensures forall k :: 0 <= k < |parts| ==> Above(parts[k])
  {
    hide Maxed, Tombstoned, Shrinks, Level;
    forall k | 0 <= k < |parts| ensures Above(parts[k]) {
      var lo :| LiesAt(parts[k], gens[start..end], lo);
      forall i | 0 <= i < |parts[k]| ensures parts[k][i].files != [] && parts[k][i].files[0].sequence >= 4 {
        assert parts[k][i] == gens[start..end][lo + i] == gens[start + lo + i];
        assert Sequence(gens[start + lo + i]) >= 4;
      }
    }
  }

  ghost function StepParts(gens: seq<Generation>, start: nat, end: nat): seq<seq<Generation>>
    requires Usable(gens) && start <= end <= |gens|
  {
    Worthy(Steps(gens[start..end], if 4 > end then end else 4), 2)
  }

  /** The groups of level-4 generations, step by step. */
  method StepPlan(gens: seq<Generation>)
    returns (out: seq<Group>, parts: seq<seq<Generation>>, ghost start: nat, ghost end: nat)
    requires Usable(gens)
    ensures Bounds(gens, start, end) && start <= end <= |gens| && parts == StepParts(gens, start, end)
    ensures Planned(out, parts, gens) && AllSorted(out)
    ensures forall k :: 0 <= k < |parts| ==> Above(parts[k]) && |parts[k]| <= 4
  {
    hide Bounds, Planned, AllSorted, Worthy, Steps, Above, Adjacent, Bag, BagOf;
    var lo, hi := FindBounds(gens);
    start, end := lo, hi;
    BoundsWithin(gens, lo, hi);
    SliceBag(gens, lo, hi);
    var step := if 4 > hi then hi else 4;
    out, parts := StepPieces(gens[lo..hi], step);
    PlannedAdjacent(out, parts, gens[lo..hi]);
    PartsAbove(gens, lo, hi, parts);
    SliceAdjacent(gens, lo, hi);
    PlannedWithin(out, parts, gens[lo..hi], gens);
    PlannedUp(out, parts, gens);
  }

  lemma {:induction false} BoundsWithin(gens: seq<Generation>, start: nat, end: nat)
    requires Usable(gens) && Bounds(gens, start, end)
    ensures start <= end <= |gens|
  {
  }

  lemma {:induction false} PlannedUp(groups: seq<Group>, parts: seq<seq<Generation>>, gens: seq<Generation>)
    requires |groups| == |parts| && BagOf(groups) <= Bag(gens)
    requires forall k :: 0 <= k < |groups| ==> Adjacent(parts[k], gens) && multiset(groups[k]) == Bag(parts[k])
    ensures Planned(groups, parts, gens)
  {
  }

  // ---------------------------------------------------------------- files in use

  /** Some file of the parts is in use. */
  ghost predicate Clash(parts: seq<seq<Generation>>, used: set<Path>) {
    exists p :: p in Bag(Concat(parts)) && p in used
  }

  lemma {:induction false} PlannedBag(groups: seq<Group>, parts: seq<seq<Generation>>)
    requires |groups| == |parts| && forall k :: 0 <= k < |groups| ==> multiset(groups[k]) == Bag(parts[k])
    ensures BagOf(groups) == Bag(Concat(parts))
  {
    hide Bag, BagOf, Concat;
    NothingPlanned([]);
    if groups != [] {
      var n := |groups| - 1;
      PlannedBag(groups[..n], parts[..n]);
      assert groups == groups[..n] + [groups[n]] && parts == parts[..n] + [parts[n]];
      BagOfSnoc(groups[..n], groups[n]);
      BagNext(parts[..n], parts[n]);
    }
  }

  lemma {:induction false} PlannedClash(groups: seq<Group>, parts: seq<seq<Generation>>, gens: seq<Generation>,
                                        used: set<Path>)
    requires Planned(groups, parts, gens)
    ensures BagOf(groups) <= Bag(gens)
    ensures Clash(parts, used) <==> !(forall p :: p in BagOf(groups) ==> p !in used)
  {
    hide Bag, BagOf, Concat, Adjacent;
    PlannedBag(groups, parts);
  }

  ghost predicate InUse(files: set<Path>, groups: seq<Group>) {
    NoDup(BagOf(groups)) && forall p :: p in files <==> p in BagOf(groups)
  }

  ghost predicate Handy(gens: seq<Generation>) {
    Ordered(gens) && NoDup(Bag(gens))
  }

  method IsFree(inUse: set<Path>, groups: seq<Group>) returns (ok: bool)
    ensures ok <==> forall p :: p in BagOf(groups) ==> p !in inUse
  {
    hide BagOf;
    NoGroups();
    for i := 0 to |groups|
      invariant forall p :: p in BagOf(groups[..i]) ==> p !in inUse
    {
      Member(groups, i);
      for j := 0 to |groups[i]|
        invariant forall k :: 0 <= k < j ==> groups[i][k] !in inUse
      {
        if groups[i][j] in inUse {
          assert groups[i][j] in multiset(groups[i]);
          return false;
        }
      }
      assert forall p :: p in multiset(groups[i]) ==> p in groups[i];
    }
    assert groups[..|groups|] == groups;
    return true;
  }

  lemma {:induction false} Member(groups: seq<Group>, i: nat)
    requires i < |groups|
    ensures BagOf(groups[..i + 1]) == BagOf(groups[..i]) + multiset(groups[i])
    ensures multiset(groups[i]) <= BagOf(groups)
    ensures groups[..|groups|] == groups
  {
    hide BagOf;
    assert groups[..i + 1] == groups[..i] + [groups[i]];
    BagOfSnoc(groups[..i], groups[i]);
    assert groups == groups[..i + 1] + groups[i + 1..];
    BagOfAppend(groups[..i + 1], groups[i + 1..]);
  }

  /** The files of the groups as a set. */
  method FileSet(groups: seq<Group>) returns (files: set<Path>)
    ensures forall p :: p in files <==> p in BagOf(groups)
  {
    hide BagOf;
    files := {};
    NoGroups();
    for i := 0 to |groups|
      invariant forall p :: p in files <==> p in BagOf(groups[..i])
    {
      Member(groups, i);
      assert forall p :: p in multiset(groups[i]) <==> p in groups[i];
      files := files + (set p | p in groups[i]);
    }
    assert groups[..|groups|] == groups;
  }

  class Planner {
    var filesInUse: set<Path>
    var lastFind: Option<int>
    var lastGenerations: seq<Generation>
    var lastPlanCheck: Option<int>
    const coldDuration: int

    /** The groups that were handed out and not released yet. */
    ghost var outstanding: seq<Group>

    /** The files in use are those of the outstanding groups, and no two of these share a file. */
    ghost predicate Valid()
      reads this
    {
      InUse(filesInUse, outstanding) && Handy(lastGenerations)
    }

    constructor (coldDuration: int)
      ensures Valid() && outstanding == [] && filesInUse == {} && this.coldDuration == coldDuration
      ensures lastFind == None && lastPlanCheck == None
    {
      filesInUse, lastFind, lastGenerations, lastPlanCheck, outstanding := {}, None, [], None, [];
      this.coldDuration := coldDuration;
      new;
      NothingPlanned([]);
    }

    /** The generations of the files on disk; the last answer again if nothing changed on disk. */
    method FindGenerations(fs: FileStore, skipInUse: bool) returns (gens: seq<Generation>)
      requires Valid() && NoDup(multiset(PathsIn(fs.stats)))
      modifies this`lastFind, this`lastGenerations
      ensures Valid() && Handy(gens) && gens == lastGenerations && lastFind == Some(fs.lastModified)
      ensures old(lastFind) == Some(fs.lastModified) ==> gens == old(lastGenerations)
      ensures old(lastFind) != Some(fs.lastModified) ==>
                Found(gens, fs.stats, if skipInUse then filesInUse else {})
    {
      hide Bag, PathsIn, InUse, Found, Ordered;
      if lastFind == Some(fs.lastModified) {
        return lastGenerations;
      }
      gens := [];
      ghost var used := if skipInUse then filesInUse else {};
      FoundNone(used);
      assert fs.stats[..0] == [];
      for i := 0 to |fs.stats|
        invariant Ordered(gens) && Found(gens, fs.stats[..i], used)
      {
        var f := fs.stats[i];
        assert fs.stats[..i + 1] == fs.stats[..i] + [f];
        ghost var before := gens;
        if skipInUse && f.path in filesInUse {
          FoundSkip(gens, fs.stats[..i], used, f);
          continue;
        }
        gens := AddFile(gens, f);
        FoundNext(before, gens, fs.stats[..i], used, f);
      }
      assert fs.stats[..|fs.stats|] == fs.stats;
      FoundBag(gens, fs.stats, used);
      NoDupLess(Bag(gens), multiset(PathsIn(fs.stats)));
      lastFind := Some(fs.lastModified);
      lastGenerations := gens;
    }

    /** Marks the files of the groups as in use, unless one of them already is. */
    method Acquire(groups: seq<Group>) returns (ok: bool)
      requires Valid() && NoDup(BagOf(groups))
      modifies this`filesInUse, this`outstanding
      ensures Valid()
      ensures ok <==> forall p :: p in BagOf(groups) ==> p !in old(filesInUse)
      ensures outstanding == if ok then old(outstanding) + groups else old(outstanding)
      ensures !ok ==> filesInUse == old(filesInUse)
    {
      hide BagOf, Handy;
      ok := IsFree(filesInUse, groups);
      if !ok {
        return false;
      }
      var files := FileSet(groups);
      BagOfAppend(outstanding, groups);
      filesInUse := filesInUse + files;
      outstanding := outstanding + groups;
    }

    /** Gives groups back. */
    method Release(groups: seq<Group>, ghost rest: seq<Group>)
      requires Valid() && multiset(outstanding) == multiset(groups) + multiset(rest)
      modifies this`filesInUse, this`outstanding
      ensures Valid() && outstanding == rest
      ensures forall p :: p in BagOf(groups) ==> p !in filesInUse
    {
      hide BagOf, Handy;
      var files := FileSet(groups);
      BagOfOrder(outstanding, groups + rest);
      BagOfAppend(groups, rest);
      assert multiset(groups + rest) == multiset(groups) + multiset(rest);
      Returned(BagOf(groups), BagOf(rest), filesInUse, files);
      filesInUse := filesInUse - files;
      outstanding := rest;
    }

    /** Takes the groups of a plan into use, all or none. */
    method Take(planned: seq<Group>, ghost pieces: seq<seq<Generation>>, ghost gens: seq<Generation>)
      returns (groups: seq<Group>, ghost parts: seq<seq<Generation>>)
      requires Valid() && Handy(gens) && Planned(planned, pieces, gens)
      modifies this`filesInUse, this`outstanding
      ensures Valid() && Planned(groups, parts, gens)
      ensures outstanding == old(outstanding) + groups && forall p :: p in BagOf(groups) ==> p !in old(filesInUse)
      ensures groups == (if parts == [] then [] else planned)
              && parts == if Clash(pieces, old(filesInUse)) then [] else pieces
    {
      hide Bag, BagOf, InUse, Planned, Ordered, Clash;
      groups, parts := [], [];
      NothingPlanned(gens);
      PlannedClash(planned, pieces, gens, filesInUse);
      PlannedAdjacent(planned, pieces, gens);
      NoDupLess(BagOf(planned), Bag(gens));
      var ok := Acquire(planned);
      if ok {
        groups, parts := planned, pieces;
      }
    }

    /** Plans a compaction of one level: groups of adjacent generations, none of them shared. */
    method PlanLevel(fs: FileStore, level: nat)
      returns (groups: seq<Group>, ghost parts: seq<seq<Generation>>, ghost gens: seq<Generation>,
               ghost runs: seq<seq<Generation>>)
      requires Valid() && NoDup(multiset(PathsIn(fs.stats)))
      modifies this
      ensures Valid() && gens == lastGenerations && Handy(gens) && Usable(gens) && Planned(groups, parts, gens)
              && AllBelow(parts, level)
      ensures outstanding == old(outstanding) + groups && forall p :: p in BagOf(groups) ==> p !in old(filesInUse)
      ensures if |gens| <= 1 && !AnyTombstoned(gens) then parts == []
              else Runs(runs, gens) && AllUsable(runs) &&
                   parts == if Clash(Wanted(runs, level), old(filesInUse)) then [] else Wanted(runs, level)
      ensures Ripe(gens, level, old(filesInUse)) ==> AllPieces(parts, gens, level)
      ensures FoundFree(gens, fs, old(lastFind), old(lastGenerations), old(filesInUse))
    {
      hide Bag, BagOf, PathsIn, AnyTombstoned, InUse, Planned, NoDup, Runs, AllBelow, Clash, SortedIds, InPlace,
           OfLevel, LevelParts, AllUsable, AllPieces, Found;
      var found := FindGenerations(fs, true);
      gens, runs := found, [];
      groups, parts := [], [];
      NothingPlanned(gens);
      AllBelowMore([], [], level);
      if |found| <= 1 && !AnyTombstoned(found) {
        return;
      }
      var minGenerations := if level % 2 != 0 then level + 1 else level;
      var groupSize := if level == 1 then 8 else 4;
      var planned, pieces;
      planned, pieces, runs := PlanPieces(found, level, groupSize, minGenerations);
      UsableRuns(runs, gens);
      if Ripe(gens, level, filesInUse) {
        FreeNoClash(planned, pieces, gens, filesInUse);
        OneLevel(gens, runs, level, filesInUse);
      }
      groups, parts := Take(planned, pieces, gens);
    }

    /** Plans to rewrite whole runs of level-4 generations. */
    method PlanOptimize(fs: FileStore)
      returns (groups: seq<Group>, ghost parts: seq<seq<Generation>>, ghost gens: seq<Generation>,
               ghost runs: seq<seq<Generation>>)
      requires Valid() && NoDup(multiset(PathsIn(fs.stats)))
      modifies this
      ensures Valid() && gens == lastGenerations && Handy(gens) && Usable(gens) && Planned(groups, parts, gens)
      ensures outstanding == old(outstanding) + groups && forall p :: p in BagOf(groups) ==> p !in old(filesInUse)
      ensures forall k :: 0 <= k < |parts| ==> Usable(parts[k]) && TopLevel(parts[k], 4) && WorthIt(parts[k], 4)
      ensures if |gens| <= 1 && !AnyTombstoned(gens) then parts == []
              else Runs(runs, gens) && AllUsable(runs) &&
                   parts == if Clash(Worthy(OfLevel(runs, 4), 4), old(filesInUse)) then []
                            else Worthy(OfLevel(runs, 4), 4)
      ensures RipeTop(gens, old(filesInUse)) ==> parts == [gens]
      ensures FoundFree(gens, fs, old(lastFind), old(lastGenerations), old(filesInUse))
    {
      hide Bag, BagOf, PathsIn, AnyTombstoned, InUse, Planned, NoDup, Runs, Clash, SortedIds, InPlace, OfLevel, Worthy,
           WorthIt, AllUsable, TopLevel, Found;
      var found := FindGenerations(fs, true);
      gens, runs := found, [];
      groups, parts := [], [];
      NothingPlanned(gens);
      if |found| <= 1 && !AnyTombstoned(found) {
        return;
      }
      var planned, pieces;
      planned, pieces, runs := OptimizePieces(found);
      UsableRuns(runs, gens);
      WorthyRuns(runs);
      if RipeTop(gens, filesInUse) {
        FreeNoClash(planned, pieces, gens, filesInUse);
        OneTop(gens, runs, filesInUse);
      }
      groups, parts := Take(planned, pieces, gens);
    }

    /** The shard was not written for long. */
    ghost predicate Cold(now: int, lastWrite: int) {
      coldDuration > 0 && now - lastWrite > coldDuration
    }

    /** The full compaction of a cold shard, unless a file of it is in use. */
    method TakeFull(found: seq<Generation>) returns (groups: seq<Group>)
      requires Valid() && Handy(found) && Usable(found)
      modifies this`filesInUse, this`outstanding
      ensures Valid() && BagOf(groups) <= Bag(found) && AllSorted(groups)
      ensures FullPlanned(groups, found, old(filesInUse))
      ensures outstanding == old(outstanding) + groups && forall p :: p in BagOf(groups) ==> p !in old(filesInUse)
    {
      hide Bag, BagOf, InUse, NoDup, Ordered, AllSorted, FullPlanned;
      groups := [];
      NothingPlanned(found);
      AllSortedMore([], []);
      var planned := FullPlan(found);
      NoDupLess(BagOf(planned), Bag(found));
      FullIf(planned, found, filesInUse);
      var ok := Acquire(planned);
      if ok {
        groups := planned;
      }
    }

    /** The steps of the level-4 generations, unless nothing changed or a file of them is in use. */
    method TakeSteps(found: seq<Generation>, modified: int, now: int)
      returns (groups: seq<Group>, ghost parts: seq<seq<Generation>>, ghost start: nat, ghost end: nat)
      requires Valid() && Handy(found) && Usable(found)
      modifies this`filesInUse, this`outstanding, this`lastPlanCheck
      ensures Valid() && BagOf(groups) <= Bag(found) && AllSorted(groups) && Planned(groups, parts, found)
      ensures forall k :: 0 <= k < |parts| ==> Above(parts[k]) && |parts[k]| <= 4
      ensures StepPlanned(parts, found, start, end, old(lastPlanCheck), modified, old(filesInUse))
      ensures outstanding == old(outstanding) + groups && forall p :: p in BagOf(groups) ==> p !in old(filesInUse)
      ensures lastPlanCheck == if Unchanged(found, old(lastPlanCheck), modified) then old(lastPlanCheck) else Some(now)
    {
      hide Bag, BagOf, AnyTombstoned, InUse, Planned, NoDup, Ordered, Clash, Bounds, Above, AllSorted, StepParts,
           StepPlanned, Unchanged, Later;
      groups, parts, start, end := [], [], 0, 0;
      NothingPlanned(found);
      AllSortedMore([], []);
      ghost var check := lastPlanCheck;
      NoSteps(found, check, modified, filesInUse);
      if Later(lastPlanCheck, modified) && !AnyTombstoned(found) {
        return;
      }
      lastPlanCheck := Some(now);
      if |found| <= 1 && !AnyTombstoned(found) {
        return;
      }
      var planned, pieces;
      planned, pieces, start, end := StepPlan(found);
      StepsIf(found, start, end, check, modified, filesInUse);
      groups, parts := Take(planned, pieces, found);
      PlannedAdjacent(groups, parts, found);
    }

    /** Plans a full compaction of a cold shard, or a compaction of its level-4 generations. */
    method Plan(fs: FileStore, lastWrite: int, now: int)
      returns (groups: seq<Group>, ghost parts: seq<seq<Generation>>, ghost gens: seq<Generation>, ghost start: nat,
               ghost end: nat)
      requires Valid() && NoDup(multiset(PathsIn(fs.stats)))
      modifies this
      ensures Valid() && gens == lastGenerations && Handy(gens) && Usable(gens) && BagOf(groups) <= Bag(gens)
              && AllSorted(groups)
      ensures if Cold(now, lastWrite) && |gens| > 1 then FullPlanned(groups, gens, old(filesInUse))
              else && Planned(groups, parts, gens)
                   && (forall k :: 0 <= k < |parts| ==> Above(parts[k]) && |parts[k]| <= 4)
                   && StepPlanned(parts, gens, start, end, old(lastPlanCheck), fs.lastModified, old(filesInUse))
      ensures outstanding == old(outstanding) + groups && forall p :: p in BagOf(groups) ==> p !in old(filesInUse)
      ensures FoundFree(gens, fs, old(lastFind), old(lastGenerations), old(filesInUse))
      ensures lastPlanCheck ==
              if (Cold(now, lastWrite) && |gens| > 1) || Unchanged(gens, old(lastPlanCheck), fs.lastModified)
              then old(lastPlanCheck) else Some(now)
    {
      hide Bag, BagOf, PathsIn, InUse, Planned, NoDup, SortedIds, InPlace, Above, AllSorted, FullPlanned, Found,
           StepPlanned, Unchanged;
      var found := FindGenerations(fs, true);
      gens, parts, start, end := found, [], 0, 0;
      if coldDuration > 0 && now - lastWrite > coldDuration && |found| > 1 {
        groups := TakeFull(found);
        return;
      }
      groups, parts, start, end := TakeSteps(found, fs.lastModified, now);
    }
  }

  /** The check was made after the given time. */
  predicate Later(check: Option<int>, time: int) {
    check != None && check.value > time
  }

  /** Nothing to do: the last check came after the last change on disk, and there are no tombstones. */
  ghost predicate Unchanged(gens: seq<Generation>, check: Option<int>, modified: int) {
    check.Some? && check.value > modified && !AnyTombstoned(gens)
  }

  /** Nothing, or the worthwhile steps of the level-4 generations within the bounds if none of their files is in use. */
  ghost predicate StepPlanned(parts: seq<seq<Generation>>, gens: seq<Generation>, start: nat, end: nat,
                              check: Option<int>, modified: int, used: set<Path>)
    requires Usable(gens)
  {
    if (|gens| <= 1 && !AnyTombstoned(gens)) || Unchanged(gens, check, modified) then parts == []
    else && start <= end <= |gens| && Bounds(gens, start, end)
         && parts == if Clash(StepParts(gens, start, end), used) then [] else StepParts(gens, start, end)
  }

  lemma {:induction false} NoSteps(gens: seq<Generation>, check: Option<int>, modified: int, used: set<Path>)
    requires Usable(gens)
    ensures Later(check, modified) && !AnyTombstoned(gens) <==> Unchanged(gens, check, modified)
    ensures (|gens| <= 1 && !AnyTombstoned(gens)) || Unchanged(gens, check, modified) ==>
              StepPlanned([], gens, 0, 0, check, modified, used)
  {
    hide AnyTombstoned;
  }

  lemma {:induction false} StepsIf(gens: seq<Generation>, start: nat, end: nat, check: Option<int>, modified: int,
                                   used: set<Path>)
    requires Usable(gens) && !Unchanged(gens, check, modified) && !(|gens| <= 1 && !AnyTombstoned(gens))
    requires start <= end <= |gens| && Bounds(gens, start, end)
    ensures Clash(StepParts(gens, start, end), used) ==> StepPlanned([], gens, start, end, check, modified, used)
    ensures !Clash(StepParts(gens, start, end), used) ==>
              StepPlanned(StepParts(gens, start, end), gens, start, end, check, modified, used)
  {
    hide AnyTombstoned, Bounds, StepParts, Clash, Unchanged;
  }

  /** What a level plan asks for: pieces of up to 4 generations, 8 for level 1, that are numerous enough. */
  ghost function Wanted(runs: seq<seq<Generation>>, level: nat): seq<seq<Generation>>
    requires AllUsable(runs)
  {
    LevelParts(OfLevel(runs, level), if level == 1 then 8 else 4, if level % 2 != 0 then level + 1 else level)
  }

  /** The generations of the files that are not in use, or those found before if nothing changed on disk since. */
  ghost predicate FoundFree(gens: seq<Generation>, fs: FileStore, lastFind: Option<int>, before: seq<Generation>,
                            used: set<Path>)
  {
    if lastFind == Some(fs.lastModified) then gens == before else Found(gens, fs.stats, used)
  }

  ghost predicate AllFree(gens: seq<Generation>, used: set<Path>) {
    forall p :: p in Bag(gens) ==> p !in used
  }

  /** Free generations of the sequence number `level`: at least 2 of level 1 or 2, at least 4 of level 3. */
  ghost predicate Ripe(gens: seq<Generation>, level: nat, used: set<Path>)
    requires Usable(gens)
  {
    && 1 <= level <= 3 && |gens| >= (if level == 3 then 4 else 2) && AllFree(gens, used)
    && forall i :: 0 <= i < |gens| ==> gens[i].files[0].sequence == level
  }

  /** The pieces of 4 generations, 8 of level 1, that are large enough or have tombstones; the first one is. */
  ghost predicate AllPieces(parts: seq<seq<Generation>>, gens: seq<Generation>, level: nat) {
    var size := if level == 1 then 8 else 4;
    && parts == Worthy(ChunksOf(gens, size), if level == 3 then 4 else 2)
    && parts != [] && parts[0] == if |gens| < size then gens else gens[..size]
  }

  /** At least 4 free generations of sequence numbers from 4 on. */
  ghost predicate RipeTop(gens: seq<Generation>, used: set<Path>)
    requires Usable(gens)
  {
    && |gens| >= 4 && AllFree(gens, used)
    && forall i :: 0 <= i < |gens| ==> gens[i].files[0].sequence >= 4
  }

  lemma {:induction false} FreeNoClash(groups: seq<Group>, parts: seq<seq<Generation>>, gens: seq<Generation>,
                                       used: set<Path>)
    requires Planned(groups, parts, gens)
    ensures AllFree(gens, used) ==> !Clash(parts, used)
  {
    hide Bag, BagOf, Clash, Planned;
    PlannedClash(groups, parts, gens, used);
  }

  /** Generations of one level are one run. */
  lemma {:induction false} OneRun(gens: seq<Generation>, runs: seq<seq<Generation>>)
    requires Usable(gens) && gens != [] && Runs(runs, gens)
    requires forall i, j :: 0 <= i < |gens| && 0 <= j < |gens| ==> SameLevel(gens[i], gens[j])
    ensures runs == [gens]
  {
    hide Grouped, SameLevel;
    if |runs| > 1 {
      SameLevelTogether(gens, runs, 0);
      assert false;
    } else if |runs| == 1 {
      assert runs == [runs[0]] && runs[1..] == [];
      assert Concat(runs) == runs[0] + Concat<Generation>([]) == runs[0] + [] == runs[0];
    }
  }

  lemma {:induction false} OneOfLevel(gens: seq<Generation>, level: nat)
    requires Usable(gens) && TopLevel(gens, level)
    ensures AllUsable([gens]) && OfLevel([gens], level) == [gens]
  {
    hide TopLevel;
    assert AllUsable([]);
    OfLevelSnoc([], gens, level);
    NoneOfLevel(level);
    assert [] + [gens] == [gens];
  }

  lemma {:induction false} OneLevel(gens: seq<Generation>, runs: seq<seq<Generation>>, level: nat, used: set<Path>)
    requires Usable(gens) && Runs(runs, gens) && AllUsable(runs) && Ripe(gens, level, used)
    ensures AllPieces(Wanted(runs, level), gens, level)
  {
    hide OfLevel, Runs, LevelParts, Worthy, ChunksOf, AllFree, TopLevel;
    RipeLevel(gens, level, used);
    OneRun(gens, runs);
    OneOfLevel(gens, level);
    FirstPiece(gens, if level == 1 then 8 else 4, if level == 3 then 4 else 2);
  }

  lemma {:induction false} RipeLevel(gens: seq<Generation>, level: nat, used: set<Path>)
    requires Usable(gens) && Ripe(gens, level, used)
    ensures TopLevel(gens, level) && forall i, j :: 0 <= i < |gens| && 0 <= j < |gens| ==> SameLevel(gens[i], gens[j])
  {
    hide AllFree;
    assert forall i :: 0 <= i < |gens| ==> Sequence(gens[i]) == level;
    assert AtLevel(gens[0], level);
  }

  lemma {:induction false} FirstPiece(gens: seq<Generation>, size: nat, least: nat)
    requires 0 < least <= size && |gens| >= least
    ensures var parts := LevelParts([gens], size, least);
            && parts == Worthy(ChunksOf(gens, size), least)
            && parts != [] && parts[0] == if |gens| < size then gens else gens[..size]
  {
    hide LevelParts, Worthy;
    LevelPartsSnoc([], gens, size, least);
    NoLevelParts(size, least);
    assert [] + [gens] == [gens];
    assert [] + Worthy(ChunksOf(gens, size), least) == Worthy(ChunksOf(gens, size), least);
    WorthyFirst(ChunksOf(gens, size), least);
  }

  lemma {:induction false} OneTop(gens: seq<Generation>, runs: seq<seq<Generation>>, used: set<Path>)
    requires Usable(gens) && Runs(runs, gens) && AllUsable(runs) && RipeTop(gens, used)
    ensures Worthy(OfLevel(runs, 4), 4) == [gens]
  {
    hide OfLevel, Runs, Worthy, AllFree;
    assert forall i :: 0 <= i < |gens| ==> Sequence(gens[i]) >= 4;
    OneRun(gens, runs);
    assert AtLevel(gens[0], 4);
    OneOfLevel(gens, 4);
    WorthySnoc([], gens, 4);
    WorthyNone(4);
    assert [] + [gens] == [gens];
  }

  lemma {:induction false} WorthyFirst(parts: seq<seq<Generation>>, least: nat)
    requires parts != [] && |parts[0]| >= least
    ensures Worthy(parts, least) != [] && Worthy(parts, least)[0] == parts[0]
  {
    hide Worthy;
    var p, x := parts[..|parts| - 1], parts[|parts| - 1];
    assert parts == p + [x];
    WorthySnoc(p, x, least);
    if p == [] {
      WorthyNone(least);
    } else {
      WorthyFirst(p, least);
    }
  }

  /** A full plan is all the files that are not left out, sorted, in one group, unless they are few or in use. */
  ghost predicate FullPlanned(groups: seq<Group>, gens: seq<Generation>, used: set<Path>)
    requires Usable(gens)
  {
    var inc := Included(gens, |gens|);
    && |groups| == (if |PathsOf(inc)| > 1 && |inc| > 1 && (forall p :: p in Bag(inc) ==> p !in used) then 1 else 0)
    && (|groups| == 1 ==> multiset(groups[0]) == Bag(inc))
  }

  lemma {:induction false} FullIf(planned: seq<Group>, gens: seq<Generation>, used: set<Path>)
    requires Usable(gens)
    requires var inc := Included(gens, |gens|);
             && |planned| == (if |PathsOf(inc)| > 1 && |inc| > 1 then 1 else 0)
             && (|planned| == 1 ==> multiset(planned[0]) == BagOf(planned) == Bag(inc))
    ensures (forall p :: p in BagOf(planned) ==> p !in used) ==> FullPlanned(planned, gens, used)
    ensures !(forall p :: p in BagOf(planned) ==> p !in used) ==> FullPlanned([], gens, used)
  {
    hide Bag, BagOf, Included, PathsOf;
    NoGroups();
  }

  lemma {:induction false} UsableRuns(runs: seq<seq<Generation>>, gens: seq<Generation>)
    requires Usable(gens) && Runs(runs, gens)
    ensures AllUsable(runs)
  {
  }

  lemma {:induction false} WorthyRuns(runs: seq<seq<Generation>>)
    requires AllUsable(runs)
    ensures var parts := Worthy(OfLevel(runs, 4), 4);
            forall k :: 0 <= k < |parts| ==> Usable(parts[k]) && TopLevel(parts[k], 4) && WorthIt(parts[k], 4)
  {
    hide Worthy, OfLevel, TopLevel, WorthIt;
    var parts := Worthy(OfLevel(runs, 4), 4);
    forall k | 0 <= k < |parts| ensures Usable(parts[k]) && TopLevel(parts[k], 4) && WorthIt(parts[k], 4) {
      assert parts[k] in parts;
    }
  }

  // ---------------------------------------------------------------- which files were found

  /** The files that are not in use. */
  ghost function Free(files: seq<FileStat>, used: set<Path>): seq<FileStat> {
    if files == [] then []
    else Free(files[..|files| - 1], used) + if files[|files| - 1].path in used then [] else [files[|files| - 1]]
  }

  lemma {:induction false} FreeSnoc(files: seq<FileStat>, f: FileStat, used: set<Path>)
    ensures Free(files + [f], used) == Free(files, used) + if f.path in used then [] else [f]
  {
    assert (files + [f])[..|files|] == files;
  }

  /** Every generation has, in order, the free files of its number. */
  ghost predicate Found(gens: seq<Generation>, files: seq<FileStat>, used: set<Path>) {
    && Bag(gens) == multiset(PathsIn(Free(files, used)))
    && forall id :: FilesAt(gens, id) == ById(Free(files, used), id)
  }

  lemma {:induction false} FoundNone(used: set<Path>)
    ensures Ordered([]) && Found([], [], used)
  {
  }

  lemma {:induction false} FoundSkip(gens: seq<Generation>, files: seq<FileStat>, used: set<Path>, f: FileStat)
    requires Found(gens, files, used) && f.path in used
    ensures Found(gens, files + [f], used)
  {
    hide Bag, PathsIn, FilesAt, ById, Free;
    FreeSnoc(files, f, used);
    assert Free(files, used) + [] == Free(files, used);
  }

  lemma {:induction false} FoundNext(gens: seq<Generation>, next: seq<Generation>, files: seq<FileStat>,
                                     used: set<Path>, f: FileStat)
    requires Found(gens, files, used) && f.path !in used
    requires Bag(next) == Bag(gens) + multiset{f.path}
    requires forall id :: FilesAt(next, id) == FilesAt(gens, id) + if id == f.gen then [f] else []
    ensures Found(next, files + [f], used)
  {
    hide Bag, PathsIn, FilesAt, ById, Free;
    FreeSnoc(files, f, used);
    PathsInSnoc(Free(files, used), f);
    forall id ensures FilesAt(next, id) == ById(Free(files + [f], used), id) {
      ByIdSnoc(Free(files, used), f, id);
    }
  }

  lemma {:induction false} FoundBag(gens: seq<Generation>, files: seq<FileStat>, used: set<Path>)
    requires Found(gens, files, used)
    ensures Bag(gens) <= multiset(PathsIn(files))
  {
    hide Bag, PathsIn, FilesAt, ById, Free;
    FreeBag(files, used);
  }

  lemma {:induction false} FreeBag(files: seq<FileStat>, used: set<Path>)
    ensures multiset(PathsIn(Free(files, used))) <= multiset(PathsIn(files))
  {
    hide PathsIn, Free;
    if files == [] {
      NoFree(used);
    } else {
      var p, f := files[..|files| - 1], files[|files| - 1];
      FreeBag(p, used);
      assert files == p + [f];
      FreeSnoc(p, f, used);
      PathsInSnoc(p, f);
      PathsInSnoc(Free(p, used), f);
      assert Free(p, used) + [] == Free(p, used);
    }
  }

  lemma {:induction false} NoFree(used: set<Path>)
    ensures Free([], used) == []
  {
  }

  lemma {:induction false} Returned(a: multiset<Path>, b: multiset<Path>, files: set<Path>, gone: set<Path>)
    requires NoDup(a + b) && (forall p :: p in files <==> p in a + b) && forall p :: p in gone <==> p in a
    ensures NoDup(b) && forall p :: p in files - gone <==> p in b
  {
    forall p ensures b[p] <= 1 && (p in files - gone <==> p in b) {
      assert (a + b)[p] == a[p] + b[p] && (a + b)[p] <= 1;
    }
  }

  /** Two outstanding groups never share a file. */
  lemma {:induction false} OutstandingApart(files: set<Path>, groups: seq<Group>, i: nat, j: nat, p: Path)
    requires InUse(files, groups) && i < j < |groups|
    ensures !(p in groups[i] && p in groups[j])
  {
    hide BagOf;
    BagOfDrop(groups, j);
    var rest := groups[..j] + groups[j + 1..];
    assert rest[i] == groups[i];
    Member(rest, i);
    assert BagOf(groups)[p] == BagOf(rest)[p] + multiset(groups[j])[p];
    assert multiset(groups[i])[p] <= BagOf(rest)[p];
  }

  lemma {:induction false} OneGroup(g: Group)
    ensures BagOf([g]) == multiset(g)
  {
    BagOfSnoc([], g);
    assert [] + [g] == [g];
  }

  lemma {:induction false} SliceBag(gens: seq<Generation>, lo: nat, hi: nat)
    requires lo <= hi <= |gens| && Usable(gens)
    ensures Bag(gens[lo..hi]) <= Bag(gens) && Usable(gens[lo..hi])
  {
    hide Bag;
    BagMiddle(gens, lo, lo, hi);
    assert gens == gens[..hi] + gens[hi..];
    BagAppend(gens[..hi], gens[hi..]);
  }
}
