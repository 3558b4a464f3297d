/** TSM files grouped into generations, and what the planner's grouping loops do with them. */
module Generations {
  import opened Sequences

  type Path = string

  datatype FileStat = FileStat(path: Path, gen: int, sequence: nat, size: nat, tombstone: bool, firstBlock: nat)

  /** The files of one generation, in sequence. */
  datatype Generation = Generation(id: int, files: seq<FileStat>)

  type Group = seq<Path>

  function SizeOf(files: seq<FileStat>): nat {
    if files == [] then 0 else SizeOf(files[..|files| - 1]) + files[|files| - 1].size
  }

  predicate Tombstoned(g: Generation) {
    exists i :: 0 <= i < |g.files| && g.files[i].tombstone
  }

  predicate AnyTombstoned(gens: seq<Generation>) {
    exists i :: 0 <= i < |gens| && Tombstoned(gens[i])
  }

  function Level(g: Generation): (l: nat)
    requires g.files != []
    ensures l <= 4
  {
    if g.files[0].sequence < 4 then g.files[0].sequence else 4
  }

  ghost predicate Usable(gens: seq<Generation>) {
    forall i :: 0 <= i < |gens| ==> gens[i].files != []
  }

  /** The highest level among the generations. */
  function MaxLevel(gens: seq<Generation>): (l: nat)
    requires forall i :: 0 <= i < |gens| ==> gens[i].files != []
    ensures forall i :: 0 <= i < |gens| ==> Level(gens[i]) <= l
  {
    if gens == [] then 0
    else var l := MaxLevel(gens[..|gens| - 1]);
         var m := Level(gens[|gens| - 1]);
         if m > l then m else l
  }

  // ---------------------------------------------------------------- sizes and tombstones by file

  /** The bytes of the files, counted from the first one on. */
  ghost function Bytes(files: seq<FileStat>): nat {
    if files == [] then 0 else files[0].size + Bytes(files[1..])
  }

  lemma {:induction false} BytesSnoc(files: seq<FileStat>, f: FileStat)
    ensures Bytes(files + [f]) == Bytes(files) + f.size
  {
    if files == [] {
      assert files + [f] == [f] && [f][1..] == [];
    } else {
      assert (files + [f])[1..] == files[1..] + [f];
      BytesSnoc(files[1..], f);
    }
  }

  lemma {:induction false} SizeExactly(files: seq<FileStat>)
    ensures SizeOf(files) == Bytes(files)
  {
    if files != [] {
      var p, f := files[..|files| - 1], files[|files| - 1];
      assert files == p + [f];
      SizeExactly(p);
      BytesSnoc(p, f);
    }
  }

  /** Some file of the generation has tombstones. */
  ghost predicate Marked(g: Generation) {
    exists f :: f in g.files && f.tombstone
  }

  lemma {:induction false} TombstonedExactly(gens: seq<Generation>, g: Generation)
    ensures Tombstoned(g) <==> Marked(g)
    ensures AnyTombstoned(gens) <==> exists h :: h in gens && Marked(h)
  {
    MarkedExactly(g);
    hide Tombstoned, Marked;
    forall i | 0 <= i < |gens| ensures Tombstoned(gens[i]) <==> Marked(gens[i]) {
      MarkedExactly(gens[i]);
    }
    if AnyTombstoned(gens) {
      var i :| 0 <= i < |gens| && Tombstoned(gens[i]);
      assert gens[i] in gens && Marked(gens[i]);
    }
  }

  lemma {:induction false} MarkedExactly(g: Generation)
    ensures Tombstoned(g) <==> Marked(g)
  {
    if Tombstoned(g) {
      var i :| 0 <= i < |g.files| && g.files[i].tombstone;
      assert g.files[i] in g.files;
    }
  }

  // ---------------------------------------------------------------- levels by sequence numbers

  /** The sequence number of the first file. */
  ghost function Sequence(g: Generation): nat
    requires g.files != []
  {
    g.files[0].sequence
  }

  /** Generations are of the level of their sequence number, from 4 on of level 4. */
  ghost predicate AtLevel(g: Generation, level: nat)
    requires g.files != []
  {
    if level < 4 then Sequence(g) == level else level == 4 && Sequence(g) >= 4
  }

  ghost predicate LowerLevel(a: Generation, b: Generation)
    requires a.files != [] && b.files != []
  {
    Sequence(a) < 4 && Sequence(a) < Sequence(b)
  }

  ghost predicate SameLevel(a: Generation, b: Generation)
    requires a.files != [] && b.files != []
  {
    Sequence(a) == Sequence(b) || (Sequence(a) >= 4 && Sequence(b) >= 4)
  }

  /** Some generation is of the level, and none of a higher one. */
  ghost predicate TopLevel(gens: seq<Generation>, level: nat)
    requires Usable(gens)
  {
    && (level < 4 ==> forall i :: 0 <= i < |gens| ==> Sequence(gens[i]) <= level)
    && if gens == [] then level == 0 else exists i :: 0 <= i < |gens| && AtLevel(gens[i], level)
  }

  /** The generation is of the highest level among the others. */
  ghost predicate TopWith(gens: seq<Generation>, g: Generation)
    requires Usable(gens) && g.files != []
  {
    && (forall i :: 0 <= i < |gens| ==> !LowerLevel(g, gens[i]))
    && exists i :: 0 <= i < |gens| && SameLevel(gens[i], g)
  }

  lemma {:induction false} LevelExactly(g: Generation, level: nat)
    requires g.files != []
    ensures Level(g) == level <==> AtLevel(g, level)
    ensures Level(g) > 3 <==> Sequence(g) >= 4
    ensures level < 4 ==> (Level(g) <= level <==> Sequence(g) <= level)
  {
  }

  lemma {:induction false} LowerExactly(a: Generation, b: Generation)
    requires a.files != [] && b.files != []
    ensures Level(a) < Level(b) <==> LowerLevel(a, b)
    ensures Level(a) == Level(b) <==> SameLevel(a, b)
  {
  }

  lemma {:induction false} MaxLevelIn(gens: seq<Generation>)
    requires Usable(gens)
    ensures if gens == [] then MaxLevel(gens) == 0 else exists i :: 0 <= i < |gens| && Level(gens[i]) == MaxLevel(gens)
  {
    if gens != [] {
      hide Level;
      var p, g := gens[..|gens| - 1], gens[|gens| - 1];
      MaxLevelIn(p);
      if p != [] && Level(g) <= MaxLevel(p) {
        var i :| 0 <= i < |p| && Level(p[i]) == MaxLevel(p);
        assert gens[i] == p[i];
      } else {
        assert Level(gens[|gens| - 1]) == MaxLevel(gens);
      }
    }
  }

  lemma {:induction false} MaxLevelExactly(gens: seq<Generation>, level: nat)
    requires Usable(gens)
    ensures MaxLevel(gens) == level <==> TopLevel(gens, level)
  {
    hide Level, MaxLevel, AtLevel;
    MaxLevelIn(gens);
    forall i | 0 <= i < |gens|
      ensures Level(gens[i]) <= MaxLevel(gens) && Level(gens[i]) <= 4
      ensures Level(gens[i]) == level <==> AtLevel(gens[i], level)
      ensures level < 4 ==> (Level(gens[i]) <= level <==> Sequence(gens[i]) <= level) {
      LevelExactly(gens[i], level);
    }
    if TopLevel(gens, level) && gens != [] {
      var i :| 0 <= i < |gens| && AtLevel(gens[i], level);
      assert Level(gens[i]) == level <= MaxLevel(gens);
      var j :| 0 <= j < |gens| && Level(gens[j]) == MaxLevel(gens);
      assert level < 4 ==> Level(gens[j]) <= level;
      FourAtMost(gens[i], level);
    }
  }

  lemma {:induction false} FourAtMost(g: Generation, level: nat)
    requires g.files != [] && AtLevel(g, level)
    ensures level <= 4
  {
  }

  lemma {:induction false} TopExactly(gens: seq<Generation>, g: Generation)
    requires Usable(gens) && g.files != [] && gens != []
    ensures MaxLevel(gens) == Level(g) <==> TopWith(gens, g)
  {
    hide Level, MaxLevel, LowerLevel, SameLevel;
    MaxLevelIn(gens);
    forall i | 0 <= i < |gens|
      ensures Level(gens[i]) <= MaxLevel(gens) && (Level(g) < Level(gens[i]) <==> LowerLevel(g, gens[i]))
      ensures Level(gens[i]) == Level(g) <==> SameLevel(gens[i], g) {
      LowerExactly(g, gens[i]);
      LowerExactly(gens[i], g);
    }
  }

  // ---------------------------------------------------------------- paths

  function PathsIn(files: seq<FileStat>): seq<Path> {
    if files == [] then [] else PathsIn(files[..|files| - 1]) + [files[|files| - 1].path]
  }

  function PathsOf(gens: seq<Generation>): seq<Path> {
    if gens == [] then [] else PathsOf(gens[..|gens| - 1]) + PathsIn(gens[|gens| - 1].files)
  }

  ghost function Bag(gens: seq<Generation>): multiset<Path> {
    multiset(PathsOf(gens))
  }

  ghost function BagOf(groups: seq<Group>): multiset<Path> {
    if groups == [] then multiset{} else BagOf(groups[..|groups| - 1]) + multiset(groups[|groups| - 1])
  }

  /** No file occurs twice. */
  ghost predicate NoDup(bag: multiset<Path>) {
    forall p :: bag[p] <= 1
  }

  lemma {:induction false} PathsInSnoc(files: seq<FileStat>, f: FileStat)
    ensures PathsIn(files + [f]) == PathsIn(files) + [f.path]
  {
    assert (files + [f])[..|files|] == files;
  }

  lemma {:induction false} PathsSnoc(gens: seq<Generation>, g: Generation)
    ensures PathsOf(gens + [g]) == PathsOf(gens) + PathsIn(g.files)
  {
    assert (gens + [g])[..|gens|] == gens;
  }

  lemma {:induction false} PathsAppend(a: seq<Generation>, b: seq<Generation>)
    ensures PathsOf(a + b) == PathsOf(a) + PathsOf(b)
    decreases |b|
  {
    if b == [] {
      assert a + b == a;
    } else {
      hide PathsOf, PathsIn;
      var p, g := b[..|b| - 1], b[|b| - 1];
      assert a + b == (a + p) + [g] && b == p + [g];
      PathsSnoc(a + p, g);
      PathsSnoc(p, g);
      PathsAppend(a, p);
      Regrouped(PathsOf(a), PathsOf(p), PathsIn(g.files));
    }
  }

  lemma {:induction false} BagAppend(a: seq<Generation>, b: seq<Generation>)
    ensures Bag(a + b) == Bag(a) + Bag(b)
  {
    hide PathsOf;
    PathsAppend(a, b);
  }

  lemma {:induction false} BagOfSnoc(groups: seq<Group>, g: Group)
    ensures BagOf(groups + [g]) == BagOf(groups) + multiset(g)
  {
    assert (groups + [g])[..|groups|] == groups;
  }

  lemma {:induction false} BagOfAppend(a: seq<Group>, b: seq<Group>)
    ensures BagOf(a + b) == BagOf(a) + BagOf(b)
    decreases |b|
  {
    if b == [] {
      assert a + b == a;
    } else {
      hide BagOf;
      var p, g := b[..|b| - 1], b[|b| - 1];
      assert a + b == (a + p) + [g] && b == p + [g];
      BagOfSnoc(a + p, g);
      BagOfSnoc(p, g);
      BagOfAppend(a, p);
    }
  }

  /** The bag of several groups does not depend on their order. */
  lemma {:induction false} BagOfOrder(a: seq<Group>, b: seq<Group>)
    requires multiset(a) == multiset(b)
    ensures BagOf(a) == BagOf(b)
    decreases |a|
  {
    if a == [] {
      assert |multiset(b)| == 0;
    } else {
      hide BagOf;
      var p, g := a[..|a| - 1], a[|a| - 1];
      assert a == p + [g];
      assert g in multiset(b);
      var i :| 0 <= i < |b| && b[i] == g;
      BagOfDrop(b, i);
      assert multiset(p) == multiset(a) - multiset{g};
      assert multiset(b[..i] + b[i + 1..]) == multiset(b) - multiset{g};
      BagOfOrder(p, b[..i] + b[i + 1..]);
      BagOfSnoc(p, g);
    }
  }

  lemma {:induction false} BagOfDrop(b: seq<Group>, i: nat)
    requires i < |b|
    ensures BagOf(b) == BagOf(b[..i] + b[i + 1..]) + multiset(b[i])
    ensures multiset(b) == multiset(b[..i] + b[i + 1..]) + multiset{b[i]}
  {
    hide BagOf;
    var q := b[i + 1..];
    assert b == (b[..i] + [b[i]]) + q;
    BagOfAppend(b[..i] + [b[i]], q);
    BagOfSnoc(b[..i], b[i]);
    BagOfAppend(b[..i], q);
  }

  lemma {:induction false} NoGroups()
    ensures BagOf([]) == multiset{} && PathsOf([]) == []
  {
  }

  lemma {:induction false} NoDupLess(a: multiset<Path>, b: multiset<Path>)
    requires a <= b && NoDup(b)
    ensures NoDup(a)
  {
  }

  // ---------------------------------------------------------------- runs of adjacent generations

  /** `part` are adjacent generations of `whole`. */
  ghost predicate Adjacent(part: seq<Generation>, whole: seq<Generation>) {
    exists lo :: LiesAt(part, whole, lo)
  }

  ghost predicate LiesAt(part: seq<Generation>, whole: seq<Generation>, lo: int) {
    0 <= lo <= lo + |part| <= |whole| && whole[lo..lo + |part|] == part
  }

  lemma {:induction false} SliceAdjacent(whole: seq<Generation>, lo: nat, hi: nat)
    requires lo <= hi <= |whole|
    ensures Adjacent(whole[lo..hi], whole)
  {
    assert LiesAt(whole[lo..hi], whole, lo);
  }

  lemma {:induction false} SliceOfSlice(c: seq<Generation>, lo: nat, hi: nat, i: nat, j: nat)
    requires lo <= hi <= |c| && i <= j <= hi - lo
    ensures c[lo..hi][i..j] == c[lo + i..lo + j]
  {
    var a, b := c[lo..hi][i..j], c[lo + i..lo + j];
    assert |a| == |b|;
    forall k | 0 <= k < |a| ensures a[k] == b[k] {
      assert a[k] == c[lo..hi][i + k] == c[lo + (i + k)];
    }
  }

  lemma {:induction false} AdjacentTrans(a: seq<Generation>, b: seq<Generation>, c: seq<Generation>)
    requires Adjacent(a, b) && Adjacent(b, c)
    ensures Adjacent(a, c)
  {
    var i :| LiesAt(a, b, i);
    var j :| LiesAt(b, c, j);
    SliceOfSlice(c, j, j + |b|, i, i + |a|);
    assert LiesAt(a, c, j + i);
  }

  /** The parts of a partition are runs of adjacent generations. */
  lemma {:induction false} PartAdjacent(parts: seq<seq<Generation>>, k: nat)
    requires k < |parts|
    ensures Adjacent(parts[k], Concat(parts))
    decreases |parts|
  {
    var p, x := parts[..|parts| - 1], parts[|parts| - 1];
    assert parts == p + [x];
    ConcatSnoc(p, x);
    if k < |p| {
      PartAdjacent(p, k);
      SliceAdjacent(Concat(parts), 0, |Concat(p)|);
      assert Concat(parts)[0..|Concat(p)|] == Concat(p);
      AdjacentTrans(parts[k], Concat(p), Concat(parts));
    } else {
      SliceAdjacent(Concat(parts), |Concat(p)|, |Concat(parts)|);
      assert Concat(parts)[|Concat(p)|..|Concat(parts)|] == x;
    }
  }

  // ---------------------------------------------------------------- the grouping loops

  /** Generation `i` joins the current group: the next one is of a higher level, or the group is of its level. */
  ghost predicate Joins(gens: seq<Generation>, i: nat, current: seq<Generation>)
    requires Usable(gens) && i < |gens| && Usable(current)
  {
    current == [] || TopWith(current, gens[i]) || (i + 1 < |gens| && LowerLevel(gens[i], gens[i + 1]))
  }

  /** `group` is the stretch of `gens` from `off` on in which every generation joins those before it. */
  ghost predicate Stretch(gens: seq<Generation>, off: nat, group: seq<Generation>)
    requires Usable(gens)
  {
    && off + |group| <= |gens| && gens[off..off + |group|] == group && Usable(group)
    && forall j :: 0 <= j < |group| ==> Joins(gens, off + j, group[..j])
  }

  /** The groups are maximal stretches, one after the other. */
  ghost predicate Grouped(gens: seq<Generation>, groups: seq<seq<Generation>>)
    requires Usable(gens)
  {
    forall k :: 0 <= k < |groups| ==>
      var off := |Concat(groups[..k])|;
      groups[k] != [] && Stretch(gens, off, groups[k])
      && (off + |groups[k]| < |gens| ==> !Joins(gens, off + |groups[k]|, groups[k]))
  }

  lemma {:induction false} StretchMore(gens: seq<Generation>, off: nat, group: seq<Generation>)
    requires Usable(gens) && Stretch(gens, off, group) && off + |group| < |gens|
    requires Joins(gens, off + |group|, group)
    ensures Stretch(gens, off, group + [gens[off + |group|]])
  {
    hide Joins;
    var i := off + |group|;
    var more := group + [gens[i]];
    assert gens[off..i + 1] == gens[off..i] + [gens[i]];
    forall j | 0 <= j < |more| ensures Joins(gens, off + j, more[..j]) {
      assert more[..j] == group[..j];
      assert j == |group| ==> group[..j] == group;
    }
  }

  lemma {:induction false} StretchOne(gens: seq<Generation>, i: nat)
    requires Usable(gens) && i < |gens|
    ensures Stretch(gens, i, [gens[i]])
  {
    assert gens[i..i + 1] == [gens[i]];
    assert [gens[i]][..0] == [];
  }

  lemma {:induction false} GroupedMore(gens: seq<Generation>, groups: seq<seq<Generation>>, group: seq<Generation>)
    requires Usable(gens) && Grouped(gens, groups) && group != [] && Stretch(gens, |Concat(groups)|, group)
    requires |Concat(groups)| + |group| < |gens| ==> !Joins(gens, |Concat(groups)| + |group|, group)
    ensures Grouped(gens, groups + [group])
  {
    hide Concat, Joins, Stretch;
    var more := groups + [group];
    forall k | 0 <= k < |more| ensures more[..k] == groups[..k] {
    }
    assert groups[..|groups|] == groups;
    StretchFits(gens, |Concat(groups)|, group);
  }

  lemma {:induction false} StretchFits(gens: seq<Generation>, off: nat, group: seq<Generation>)
    requires Usable(gens) && Stretch(gens, off, group)
    ensures off + |group| <= |gens| && Usable(group)
  {
  }

  /** Where a group that is not the last one ends. */
  lemma {:induction false} GroupEnds(gens: seq<Generation>, groups: seq<seq<Generation>>, k: nat)
    requires Usable(gens) && Grouped(gens, groups) && k + 1 < |groups|
    ensures var g, off := groups[k], |Concat(groups[..k])|;
            && g != [] && off + |g| < |gens| && Usable(g) && gens[off + |g| - 1] == g[|g| - 1]
            && Joins(gens, off + |g| - 1, g[..|g| - 1]) && !Joins(gens, off + |g|, g)
  {
    hide Concat, Joins;
    var g, off := groups[k], |Concat(groups[..k])|;
    assert groups[..k + 1] == groups[..k] + [g];
    ConcatSnoc(groups[..k], g);
    StretchFits(gens, off + |g|, groups[k + 1]);
    assert gens[off + |g| - 1] == gens[off..off + |g|][|g| - 1];
  }

  /** Adjacent generations of one level always end up in the same group. */
  lemma {:induction false} SameLevelTogether(gens: seq<Generation>, groups: seq<seq<Generation>>, k: nat)
    requires Usable(gens) && Grouped(gens, groups) && k + 1 < |groups|
    ensures var i := |Concat(groups[..k])| + |groups[k]|;
            0 < i < |gens| && !SameLevel(gens[i - 1], gens[i])
  {
    hide Concat, Grouped;
    GroupEnds(gens, groups, k);
    var g := groups[k];
    var i := |Concat(groups[..k])| + |g|;
    if SameLevel(gens[i - 1], gens[i]) {
      assert g[|g| - 1] == gens[i - 1];
      TopTogether(g, gens[i]);
      assert false;
    }
  }

  /** If the last generation of a group is of the highest level there, or the next one's, so is another like it. */
  lemma {:induction false} TopTogether(g: seq<Generation>, x: Generation)
    requires Usable(g) && x.files != [] && g != [] && SameLevel(g[|g| - 1], x)
    requires g[..|g| - 1] == [] || TopWith(g[..|g| - 1], g[|g| - 1])
    ensures TopWith(g, x)
  {
    var p, y := g[..|g| - 1], g[|g| - 1];
    forall i | 0 <= i < |g| ensures !LowerLevel(x, g[i]) {
      assert i < |p| ==> g[i] == p[i];
    }
  }

  /** Cuts the generations into groups by level. */
  method GroupByLevel(gens: seq<Generation>) returns (groups: seq<seq<Generation>>)
    requires Usable(gens)
    ensures Concat(groups) == gens && Grouped(gens, groups)
  {
    hide Concat, Joins, Stretch, Grouped;
    groups := [];
    var current: seq<Generation> := [];
    ConcatNone<Generation>();
    StartGrouping(gens);
    for i := 0 to |gens|
      invariant Concat(groups) + current == gens[..i] && Usable(current) && (i > 0 ==> current != [])
      invariant Grouped(gens, groups) && Stretch(gens, i - |current|, current)
    {
      var cur := gens[i];
      assert gens[..i + 1] == gens[..i] + [cur];
      assert Concat(groups) + (current + [cur]) == (Concat(groups) + current) + [cur];
      JoinsIs(gens, i, current);
      if Joins(gens, i, current) {
        StretchMore(gens, i - |current|, current);
      }
      if i < |gens| - 1 && Level(cur) < Level(gens[i + 1]) {
        current := current + [cur];
        continue;
      }
      if |current| == 0 || MaxLevel(current) == Level(cur) {
        current := current + [cur];
        continue;
      }
      ConcatSnoc(groups, current);
      GroupedMore(gens, groups, current);
      StretchOne(gens, i);
      groups := groups + [current];
      current := [cur];
    }
    assert gens[..|gens|] == gens;
    if |current| > 0 {
      ConcatSnoc(groups, current);
      GroupedMore(gens, groups, current);
      groups := groups + [current];
    }
  }

  lemma {:induction false} StartGrouping(gens: seq<Generation>)
    requires Usable(gens)
    ensures Grouped(gens, []) && Stretch(gens, 0, [])
  {
  }

  lemma {:induction false} JoinsIs(gens: seq<Generation>, i: nat, current: seq<Generation>)
    requires Usable(gens) && i < |gens| && Usable(current)
    ensures Joins(gens, i, current) <==>
            current == [] || MaxLevel(current) == Level(gens[i])
                || (i + 1 < |gens| && Level(gens[i]) < Level(gens[i + 1]))
  {
    hide Level, MaxLevel, TopWith, LowerLevel;
    if current != [] {
      TopExactly(current, gens[i]);
    }
    if i + 1 < |gens| {
      LowerExactly(gens[i], gens[i + 1]);
    }
  }

  /** Pieces of `size` generations, the last one holding the rest. */
  ghost function ChunksOf(gens: seq<Generation>, size: nat): (chunks: seq<seq<Generation>>)
    requires size > 0
    ensures forall k :: 0 <= k < |chunks| ==> 0 < |chunks[k]| <= size && (k < |chunks| - 1 ==> |chunks[k]| == size)
  {
    if gens == [] then [] else if |gens| < size then [gens]
    else [gens[..size]] + ChunksOf(gens[size..], size)
  }

  lemma {:induction false} ChunksNext(chunks: seq<seq<Generation>>, a: seq<Generation>, size: nat)
    requires size > 0 && a != []
    ensures chunks + ChunksOf(a, size) ==
            if |a| >= size then (chunks + [a[..size]]) + ChunksOf(a[size..], size)
            else (chunks + [a]) + ChunksOf([], size)
    ensures Concat(chunks) + a ==
            if |a| >= size then Concat(chunks + [a[..size]]) + a[size..] else Concat(chunks + [a]) + []
  {
    hide Concat;
    ConcatSnoc(chunks, a);
    if |a| >= size {
      ConcatSnoc(chunks, a[..size]);
      assert a == a[..size] + a[size..];
      Regrouped(Concat(chunks), a[..size], a[size..]);
      Regrouped(chunks, [a[..size]], ChunksOf(a[size..], size));
    }
  }

  method Chunk(gens: seq<Generation>, size: nat) returns (chunks: seq<seq<Generation>>)
    requires size > 0
    ensures chunks == ChunksOf(gens, size) && Concat(chunks) == gens
  {
    hide Concat;
    chunks := [];
    var a := gens;
    ConcatNone<Generation>();
    while |a| > 0
      invariant Concat(chunks) + a == gens && chunks + ChunksOf(a, size) == ChunksOf(gens, size)
      decreases |a|
    {
      hide ChunksOf;
      ChunksNext(chunks, a, size);
      if |a| >= size {
        chunks := chunks + [a[..size]];
        a := a[size..];
      } else {
        chunks := chunks + [a];
        a := [];
      }
    }
  }

  // ---------------------------------------------------------------- which groups are worth it

  predicate WorthIt(part: seq<Generation>, least: nat) {
    |part| >= least || AnyTombstoned(part)
  }

  /** The parts with enough generations or with tombstones. */
  ghost function Worthy(parts: seq<seq<Generation>>, least: nat): (out: seq<seq<Generation>>)
    ensures forall p :: p in out <==> p in parts && WorthIt(p, least)
  {
    if parts == [] then []
    else Worthy(parts[..|parts| - 1], least) + if WorthIt(parts[|parts| - 1], least) then [parts[|parts| - 1]] else []
  }

  lemma {:induction false} WorthySnoc(parts: seq<seq<Generation>>, p: seq<Generation>, least: nat)
    ensures Worthy(parts + [p], least) ==
            if |p| < least && !AnyTombstoned(p) then Worthy(parts, least) else Worthy(parts, least) + [p]
  {
    assert (parts + [p])[..|parts|] == parts;
  }

  ghost predicate AllUsable(groups: seq<seq<Generation>>) {
    forall k :: 0 <= k < |groups| ==> Usable(groups[k])
  }

  /** The groups whose highest level is the given one. */
  ghost function OfLevel(groups: seq<seq<Generation>>, level: nat): (out: seq<seq<Generation>>)
    requires AllUsable(groups)
    ensures AllUsable(out) && forall g :: g in out <==> g in groups && Usable(g) && TopLevel(g, level)
  {
    if groups == [] then []
    else OfLevel(groups[..|groups| - 1], level)
         + if TopLevel(groups[|groups| - 1], level) then [groups[|groups| - 1]] else []
  }

  lemma {:induction false} OfLevelSnoc(groups: seq<seq<Generation>>, g: seq<Generation>, level: nat)
    requires AllUsable(groups) && Usable(g)
    ensures AllUsable(groups + [g])
    ensures OfLevel(groups + [g], level) ==
            if TopLevel(g, level) then OfLevel(groups, level) + [g] else OfLevel(groups, level)
  {
    hide TopLevel;
    assert (groups + [g])[..|groups|] == groups;
  }

  /** The worthwhile pieces of the groups. */
  ghost function LevelParts(groups: seq<seq<Generation>>, size: nat, least: nat): (out: seq<seq<Generation>>)
    requires size > 0
    ensures forall p :: p in out ==> |p| <= size && WorthIt(p, least)
  {
    if groups == [] then []
    else LevelParts(groups[..|groups| - 1], size, least) + Worthy(ChunksOf(groups[|groups| - 1], size), least)
  }

  lemma {:induction false} LevelPartsSnoc(groups: seq<seq<Generation>>, g: seq<Generation>, size: nat, least: nat)
    requires size > 0
    ensures LevelParts(groups + [g], size, least) == LevelParts(groups, size, least) + Worthy(ChunksOf(g, size), least)
  {
    hide Worthy, ChunksOf;
    assert (groups + [g])[..|groups|] == groups;
  }

  // ---------------------------------------------------------------- the files of a generation

  /** The files of the generations numbered `id`. */
  ghost function FilesAt(gens: seq<Generation>, id: int): seq<FileStat> {
    if gens == [] then []
    else FilesAt(gens[..|gens| - 1], id) + if gens[|gens| - 1].id == id then gens[|gens| - 1].files else []
  }

  /** The files of a list that belong to generation `id`. */
  ghost function ById(files: seq<FileStat>, id: int): (out: seq<FileStat>)
    ensures forall f :: f in out <==> f in files && f.gen == id
  {
    if files == [] then []
    else ById(files[..|files| - 1], id) + if files[|files| - 1].gen == id then [files[|files| - 1]] else []
  }

  lemma {:induction false} ByIdSnoc(files: seq<FileStat>, f: FileStat, id: int)
    ensures ById(files + [f], id) == ById(files, id) + if f.gen == id then [f] else []
  {
    assert (files + [f])[..|files|] == files;
  }

  lemma {:induction false} FilesAtSnoc(gens: seq<Generation>, g: Generation, id: int)
    ensures FilesAt(gens + [g], id) == FilesAt(gens, id) + if g.id == id then g.files else []
  {
    assert (gens + [g])[..|gens|] == gens;
  }

  lemma {:induction false} FilesAtAppend(a: seq<Generation>, b: seq<Generation>, id: int)
    ensures FilesAt(a + b, id) == FilesAt(a, id) + FilesAt(b, id)
    decreases |b|
  {
    if b == [] {
      assert a + b == a;
    } else {
      hide FilesAt;
      var p, g := b[..|b| - 1], b[|b| - 1];
      assert a + b == (a + p) + [g] && b == p + [g];
      FilesAtSnoc(a + p, g, id);
      FilesAtSnoc(p, g, id);
      FilesAtAppend(a, p, id);
      Regrouped(FilesAt(a, id), FilesAt(p, id), if g.id == id then g.files else []);
    }
  }

  lemma {:induction false} FilesElsewhere(gens: seq<Generation>, id: int)
    requires forall i :: 0 <= i < |gens| ==> gens[i].id != id
    ensures FilesAt(gens, id) == []
  {
    if gens != [] {
      FilesElsewhere(gens[..|gens| - 1], id);
    }
  }

  /** Every file lies in the generation of its own number. */
  ghost predicate InPlace(gens: seq<Generation>) {
    forall i, j :: 0 <= i < |gens| && 0 <= j < |gens[i].files| ==> gens[i].files[j].gen == gens[i].id
  }

  ghost predicate SortedIds(gens: seq<Generation>) {
    forall i, j :: 0 <= i < j < |gens| ==> gens[i].id < gens[j].id
  }
}
