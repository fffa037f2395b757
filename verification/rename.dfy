/** The rename utility: the regular files of one directory, taken in
    natural order, are renamed to `1.<suffix>`, `2.<suffix>`, … one after
    another. The directory is a map from names to entries; a file is known
    by its content, and a sub-directory's own contents are not modelled. */
module Rename {
  import opened Base
  import opened NaturalSort

  datatype Entry = File(content: nat) | Folder

  type Dir = map<string, Entry>

  /** `os.listdir`: each name of the directory once, in some order. */
  ghost predicate IsListing(d: Dir, names: seq<string>)
  {
    && (forall n :: multiset(names)[n] <= 1)
    && (forall n :: n in names <==> n in d)
  }

  /** The names `os.path.isfile` accepts, in listing order. */
  function RegularFiles(d: Dir, names: seq<string>): (r: seq<string>)
    ensures forall n :: n in r <==> n in names && n in d && d[n].File?
    ensures multiset(r) <= multiset(names)
  {
    if names == [] then []
    else
      var rest := RegularFiles(d, names[1..]);
      assert names == [names[0]] + names[1..];
      if names[0] in d && d[names[0]].File? then [names[0]] + rest else rest
  }

  /** The regular files of a listing are taken in listing order: the
      filter distributes over concatenation, and it keeps a single name
      exactly when that name is a regular file. */
  lemma RegularFilesInOrder(d: Dir, a: seq<string>, b: seq<string>)
    ensures RegularFiles(d, a + b) == RegularFiles(d, a) + RegularFiles(d, b)
    ensures forall n :: RegularFiles(d, [n]) == if n in d && d[n].File? then [n] else []
  {
    RegularFilesAppend(d, a, b);
    forall n ensures RegularFiles(d, [n]) == if n in d && d[n].File? then [n] else [] {
      RegularFileSingle(d, n);
    }
  }

  lemma {:induction false} RegularFilesAppend(d: Dir, a: seq<string>, b: seq<string>)
    ensures RegularFiles(d, a + b) == RegularFiles(d, a) + RegularFiles(d, b)
    decreases |a|
  {
    if a == [] {
      assert a + b == b;
    } else {
      var ab := a + b;
      assert ab[0] == a[0] && ab[1..] == a[1..] + b;
      RegularFilesAppend(d, a[1..], b);
    }
  }

  lemma RegularFileSingle(d: Dir, n: string)
    ensures RegularFiles(d, [n]) == if n in d && d[n].File? then [n] else []
  {
    assert [n][1..] == [];
  }

  /** `f"{index}.{suffix}"`. */
  function NumberedName(k: nat, suffix: string): string
  {
    NatToString(k) + "." + suffix
  }

  lemma NumberedNameInjective(a: nat, b: nat, suffix: string)
    ensures NumberedName(a, suffix) == NumberedName(b, suffix) ==> a == b
  {
    var x, y := NatToString(a), NatToString(b);
    var na, nb := NumberedName(a, suffix), NumberedName(b, suffix);
    if na == nb {
      assert na[|x|] == '.' && nb[|y|] == '.';
      assert forall i :: 0 <= i < |x| ==> na[i] == x[i] && IsDigit(na[i]);
      assert forall i :: 0 <= i < |y| ==> nb[i] == y[i] && IsDigit(nb[i]);
      assert |x| == |y|;
      assert x == na[..|x|];
      assert y == nb[..|y|];
      NatToStringInjective(a, b);
    }
  }

  datatype Move = Move(src: string, dst: string)

  /** The renames in the order they are made: the k-th file in natural
      order (from 1) becomes `k.<suffix>`. */
  function Plan(d: Dir, names: seq<string>, suffix: string): (plan: seq<Move>)
  {
    Numbered(SortBy(RegularFiles(d, names), NaturalKey), suffix)
  }

  function Numbered(files: seq<string>, suffix: string): (plan: seq<Move>)
    ensures |plan| == |files|
    ensures forall i :: 0 <= i < |plan| ==>
              plan[i].src == files[i] && plan[i].dst == NumberedName(i + 1, suffix)
  {
    seq(|files|, i requires 0 <= i < |files| => Move(files[i], NumberedName(i + 1, suffix)))
  }

  /** Only regular files are renamed, and each of them exactly once; no
      sub-directory is touched. */
  lemma PlanRenamesEachFileOnce(d: Dir, names: seq<string>, suffix: string)
    requires IsListing(d, names)
    ensures var plan := Plan(d, names, suffix);
            && (forall i :: 0 <= i < |plan| ==> plan[i].src in d && d[plan[i].src].File?)
            && (forall n :: n in d && d[n].File? ==> exists i :: 0 <= i < |plan| && plan[i].src == n)
            && (forall i, j :: 0 <= i < j < |plan| ==> plan[i].src != plan[j].src)
  {
    var sorted := SortBy(RegularFiles(d, names), NaturalKey);
    SortedFilesAreFiles(d, names);
    UniqueIsDistinct(sorted);
    NumberedSources(sorted, suffix);
  }

  lemma NumberedSources(files: seq<string>, suffix: string)
    ensures var plan := Numbered(files, suffix);
            && (forall i :: 0 <= i < |plan| ==> plan[i].src == files[i])
            && (forall n :: n in files ==> exists i :: 0 <= i < |plan| && plan[i].src == n)
  {
    var plan := Numbered(files, suffix);
    forall n | n in files ensures exists i :: 0 <= i < |plan| && plan[i].src == n {
      var i :| 0 <= i < |files| && files[i] == n;
      assert plan[i].src == n;
    }
  }

  lemma SortedFilesAreFiles(d: Dir, names: seq<string>)
    requires IsListing(d, names)
    ensures var sorted := SortBy(RegularFiles(d, names), NaturalKey);
            && (forall n :: n in sorted <==> n in d && d[n].File?)
            && (forall x :: multiset(sorted)[x] <= 1)
  {
    var files := RegularFiles(d, names);
    var sorted := SortBy(files, NaturalKey);
    assert forall n :: n in sorted <==> n in multiset(files);
    forall x ensures multiset(sorted)[x] <= 1 {
      assert multiset(files)[x] <= multiset(names)[x];
    }
  }

  lemma UniqueIsDistinct(s: seq<string>)
    requires forall x :: multiset(s)[x] <= 1
    ensures forall i, j :: 0 <= i < j < |s| ==> s[i] != s[j]
  {
    forall i, j | 0 <= i < j < |s| ensures s[i] != s[j] {
      assert s == s[..j] + s[j..];
      assert multiset(s)[s[j]] == multiset(s[..j])[s[j]] + multiset(s[j..])[s[j]];
      assert s[i] in multiset(s[..j]) && s[j] in multiset(s[j..]);
    }
  }

  /** The new names are pairwise distinct and are exactly `1.<suffix>` to
      `N.<suffix>`, N the number of regular files. */
  lemma PlanTargetsAreOneToN(d: Dir, names: seq<string>, suffix: string)
    ensures var plan := Plan(d, names, suffix);
            && (forall i, j :: 0 <= i < j < |plan| ==> plan[i].dst != plan[j].dst)
            && Dsts(plan, |plan|) == set k | 1 <= k <= |plan| :: NumberedName(k, suffix)
  {
    var plan := Plan(d, names, suffix);
    NumberedTargetsDistinct(plan, suffix);
    NumberedTargetsSet(plan, suffix);
  }

  lemma NumberedTargetsDistinct(plan: seq<Move>, suffix: string)
    requires forall i :: 0 <= i < |plan| ==> plan[i].dst == NumberedName(i + 1, suffix)
    ensures forall i, j :: 0 <= i < j < |plan| ==> plan[i].dst != plan[j].dst
  {
    forall i, j | 0 <= i < j < |plan| ensures plan[i].dst != plan[j].dst {
      NumberedNameInjective(i + 1, j + 1, suffix);
    }
  }

  lemma NumberedTargetsSet(plan: seq<Move>, suffix: string)
    requires forall i :: 0 <= i < |plan| ==> plan[i].dst == NumberedName(i + 1, suffix)
    ensures Dsts(plan, |plan|) == set k | 1 <= k <= |plan| :: NumberedName(k, suffix)
  {
    var numbered := set k | 1 <= k <= |plan| :: NumberedName(k, suffix);
    forall t | t in numbered ensures t in Dsts(plan, |plan|) {
      var k :| 1 <= k <= |plan| && t == NumberedName(k, suffix);
      assert plan[k - 1].dst == t;
    }
  }

  /** A file earlier in natural order gets the smaller number. */
  lemma PlanKeepsNaturalOrder(d: Dir, names: seq<string>, suffix: string)
    ensures var plan := Plan(d, names, suffix);
            forall i, j ::
              (0 <= i < |plan| && 0 <= j < |plan|
               && KeyLess(NaturalKey(plan[i].src), NaturalKey(plan[j].src))) ==> i < j
  {
    var sorted := SortBy(RegularFiles(d, names), NaturalKey);
    var plan := Plan(d, names, suffix);
    forall i, j | 0 <= i < |plan| && 0 <= j < |plan|
                  && KeyLess(NaturalKey(plan[i].src), NaturalKey(plan[j].src))
      ensures i < j
    {
      SortedKeyOrder(sorted, NaturalKey, i, j);
    }
  }

  lemma SortedKeyOrder<T>(s: seq<T>, key: T -> Key, i: nat, j: nat)
    requires SortedBy(s, key) && i < |s| && j < |s|
    requires KeyLess(key(s[i]), key(s[j]))
    ensures i < j
  {
    LexIrreflexive(key(s[i]), SegLess);
  }

  // ---------------------------------------------------------------------
  // Carrying the plan out

  datatype Outcome = Finished(dir: Dir) | Raised(dir: Dir, at: nat)

  /** `os.rename(src, dst)` inside one directory, as POSIX does it: a
      missing source raises, renaming a name to itself does nothing, a file
      cannot replace a directory nor a directory a file, and an existing
      file at the target is replaced. Replacing a directory by a directory
      needs the target to be empty, which this model cannot see: it
      raises. */
  function RenameEntry(d: Dir, src: string, dst: string): (r: Option<Dir>)
    ensures r.Some? ==> src in d
    ensures r.Some? && src != dst ==>
              r.value.Keys == d.Keys - {src} + {dst} && r.value[dst] == d[src]
              && forall n :: n in d && n != src && n != dst ==> r.value[n] == d[n]
    ensures src in d && d[src].File? && !(dst in d && d[dst].Folder?) ==> r.Some?
    ensures src in d && src == dst ==> r == Some(d)
    ensures src in d && src != dst && dst in d && (d[src].Folder? || d[dst].Folder?) ==> r.None?
  {
    if src !in d then None
    else if src == dst then Some(d)
    else if dst in d && (d[dst].Folder? || d[src].Folder?) then None
    else Some((d - {src})[dst := d[src]])
  }

  /** The loop of `batch_rename_files_sorted` from the i-th rename on; the
      first rename that raises ends the script, leaving the directory as it
      is at that point. */
  function ApplyFrom(d: Dir, plan: seq<Move>, i: nat): (r: Outcome)
    requires i <= |plan|
    ensures r.Raised? ==> i <= r.at < |plan|
    decreases |plan| - i
  {
    if i == |plan| then Finished(d)
    else
      match RenameEntry(d, plan[i].src, plan[i].dst)
      case None => Raised(d, i)
      case Some(d1) => ApplyFrom(d1, plan, i + 1)
  }

  /** `batch_rename_files_sorted(directory, suffix)` as written. */
  function BatchRename(d: Dir, names: seq<string>, suffix: string): (r: Outcome)
    ensures r.Raised? ==> r.at < |Plan(d, names, suffix)|
  {
    ApplyFrom(d, Plan(d, names, suffix), 0)
  }

  /** What the utility is for: every renamed file is found under its new
      name with its content, every other entry is left alone, and nothing
      else is in the directory. */
  ghost predicate Renumbered(d0: Dir, plan: seq<Move>, r: Dir)
  {
    && (forall i :: 0 <= i < |plan| ==>
          plan[i].src in d0 && plan[i].dst in r && r[plan[i].dst] == d0[plan[i].src])
    && (forall n :: n in d0 && n !in Srcs(plan, 0) && n !in Dsts(plan, |plan|) ==>
          n in r && r[n] == d0[n])
    && (forall n :: n in r ==> n in Dsts(plan, |plan|) || (n in d0 && n !in Srcs(plan, 0)))
  }

  /** The sources from the i-th move on. */
  function Srcs(plan: seq<Move>, i: nat): set<string>
  {
    set j | i <= j < |plan| :: plan[j].src
  }

  /** The targets of the moves before the i-th. */
  function Dsts(plan: seq<Move>, i: nat): set<string>
    requires i <= |plan|
  {
    set j | 0 <= j < i :: plan[j].dst
  }

  /** A plan that renames no name onto one still waiting to be renamed, and
      nothing onto a sub-directory. */
  predicate Safe(d: Dir, plan: seq<Move>)
  {
    && (forall i, j :: 0 <= i < j < |plan| ==> plan[i].dst != plan[j].src)
    && (forall i :: 0 <= i < |plan| ==> !(plan[i].dst in d && d[plan[i].dst].Folder?))
  }

  /** What a plan over the regular files of a listing satisfies. */
  ghost predicate WellFormed(d0: Dir, plan: seq<Move>)
  {
    && (forall i :: 0 <= i < |plan| ==> plan[i].src in d0 && d0[plan[i].src].File?)
    && (forall n :: n in d0 && d0[n].File? ==> n in Srcs(plan, 0))
    && (forall i, j :: 0 <= i < j < |plan| ==> plan[i].src != plan[j].src)
    && (forall i, j :: 0 <= i < j < |plan| ==> plan[i].dst != plan[j].dst)
  }

  /** The targets of the first i renames hold the files renamed to them. */
  ghost predicate DoneAt(d0: Dir, plan: seq<Move>, i: nat, d: Dir)
    requires i <= |plan|
  {
    forall j :: 0 <= j < i ==>
      plan[j].dst in d && plan[j].src in d0 && d[plan[j].dst] == d0[plan[j].src]
  }

  /** The sources of the renames still to come are untouched. */
  ghost predicate PendingAt(d0: Dir, plan: seq<Move>, i: nat, d: Dir)
  {
    forall j :: i <= j < |plan| ==>
      plan[j].src in d && plan[j].src in d0 && d[plan[j].src] == d0[plan[j].src]
  }

  /** Entries the plan never mentions keep their contents. */
  ghost predicate OthersKept(d0: Dir, plan: seq<Move>, d: Dir)
  {
    forall n :: n in d0 && n !in Srcs(plan, 0) && n !in Dsts(plan, |plan|) ==>
      n in d && d[n] == d0[n]
  }

  /** Every entry is a target already written, a source still waiting, or
      one the plan never mentions. */
  ghost predicate NothingElse(d0: Dir, plan: seq<Move>, i: nat, d: Dir)
    requires i <= |plan|
  {
    forall n :: n in d ==>
      n in Dsts(plan, i) || n in Srcs(plan, i)
      || (n in d0 && n !in Srcs(plan, 0) && n !in Dsts(plan, |plan|))
  }

  /** The directory after the first i renames of a safe plan. */
  ghost predicate Midway(d0: Dir, plan: seq<Move>, i: nat, d: Dir)
    requires i <= |plan|
  {
    DoneAt(d0, plan, i, d) && PendingAt(d0, plan, i, d)
    && OthersKept(d0, plan, d) && NothingElse(d0, plan, i, d)
  }

  /** The effect of one rename that goes through: `dst` holds what `src`
      held, `src` is gone unless it is `dst`, and nothing else changes. */
  ghost predicate Moved(d: Dir, src: string, dst: string, d1: Dir)
  {
    && src in d && dst in d1 && d1[dst] == d[src]
    && (forall n :: n in d1 ==> n == dst || (n in d && n != src))
    && (forall n :: n in d && n != src && n != dst ==> n in d1 && d1[n] == d[n])
  }

  lemma RenameMoves(d: Dir, src: string, dst: string)
    requires src in d && d[src].File? && !(dst in d && d[dst].Folder?)
    ensures RenameEntry(d, src, dst).Some? && Moved(d, src, dst, RenameEntry(d, src, dst).value)
  {
  }

  /** In the middle of a safe run the next rename's source is still a file
      and its target is not a directory. */
  lemma StepAllowed(d0: Dir, plan: seq<Move>, i: nat, d: Dir)
    requires i < |plan| && WellFormed(d0, plan) && Safe(d0, plan)
    requires Midway(d0, plan, i, d)
    ensures plan[i].src in d && d[plan[i].src].File?
    ensures !(plan[i].dst in d && d[plan[i].dst].Folder?)
  {
    var m := plan[i];
    assert d[m.src] == d0[m.src];
    if m.dst in d {
      assert m.dst in Dsts(plan, |plan|);
      assert m.dst !in Dsts(plan, i);
      assert m.dst in Srcs(plan, i);
      var j :| i <= j < |plan| && plan[j].src == m.dst;
      assert j == i;
    }
  }

  lemma StepKeepsDone(d0: Dir, plan: seq<Move>, i: nat, d: Dir, d1: Dir)
    requires i < |plan| && DoneAt(d0, plan, i, d) && PendingAt(d0, plan, i, d)
    requires forall j, k :: 0 <= j < k < |plan| ==> plan[j].dst != plan[k].src
    requires forall j, k :: 0 <= j < k < |plan| ==> plan[j].dst != plan[k].dst
    requires Moved(d, plan[i].src, plan[i].dst, d1)
    ensures DoneAt(d0, plan, i + 1, d1)
  {
    DoneTargetsUntouched(plan, i);
    KeepEntries(d0, plan, i, d, d1);
  }

  lemma DoneTargetsUntouched(plan: seq<Move>, i: nat)
    requires i < |plan|
    requires forall j, k :: 0 <= j < k < |plan| ==> plan[j].dst != plan[k].src
    requires forall j, k :: 0 <= j < k < |plan| ==> plan[j].dst != plan[k].dst
    ensures forall j :: 0 <= j < i ==> plan[j].dst != plan[i].src && plan[j].dst != plan[i].dst
  {
  }

  lemma KeepEntries(d0: Dir, plan: seq<Move>, i: nat, d: Dir, d1: Dir)
    requires i < |plan| && DoneAt(d0, plan, i, d)
    requires forall j :: 0 <= j < i ==> plan[j].dst != plan[i].src && plan[j].dst != plan[i].dst
    requires plan[i].src in d && plan[i].src in d0 && d[plan[i].src] == d0[plan[i].src]
    requires Moved(d, plan[i].src, plan[i].dst, d1)
    ensures DoneAt(d0, plan, i + 1, d1)
  {
  }

  lemma StepKeepsPending(d0: Dir, plan: seq<Move>, i: nat, d: Dir, d1: Dir)
    requires i < |plan| && PendingAt(d0, plan, i, d)
    requires forall j, k :: 0 <= j < k < |plan| ==> plan[j].src != plan[k].src
    requires forall j, k :: 0 <= j < k < |plan| ==> plan[j].dst != plan[k].src
    requires Moved(d, plan[i].src, plan[i].dst, d1)
    ensures PendingAt(d0, plan, i + 1, d1)
  {
    forall j | i + 1 <= j < |plan|
      ensures plan[j].src in d1 && plan[j].src in d0 && d1[plan[j].src] == d0[plan[j].src]
    {
      assert plan[j].src != plan[i].src && plan[j].src != plan[i].dst;
    }
  }

  lemma StepKeepsOthers(d0: Dir, plan: seq<Move>, i: nat, d: Dir, d1: Dir)
    requires i < |plan| && OthersKept(d0, plan, d) && Moved(d, plan[i].src, plan[i].dst, d1)
    ensures OthersKept(d0, plan, d1)
  {
    forall n | n in d0 && n !in Srcs(plan, 0) && n !in Dsts(plan, |plan|)
      ensures n in d1 && d1[n] == d0[n]
    {
      assert plan[i].src in Srcs(plan, 0) && plan[i].dst in Dsts(plan, |plan|);
    }
  }

  lemma StepAddsNothing(d0: Dir, plan: seq<Move>, i: nat, d: Dir, d1: Dir)
    requires i < |plan| && NothingElse(d0, plan, i, d) && Moved(d, plan[i].src, plan[i].dst, d1)
    ensures NothingElse(d0, plan, i + 1, d1)
  {
    forall n | n in d1
      ensures n in Dsts(plan, i + 1) || n in Srcs(plan, i + 1)
              || (n in d0 && n !in Srcs(plan, 0) && n !in Dsts(plan, |plan|))
    {
      if n == plan[i].dst {
        assert n in Dsts(plan, i + 1);
      } else if n in Dsts(plan, i) {
        var j :| 0 <= j < i && plan[j].dst == n;
        assert n in Dsts(plan, i + 1);
      } else if n in Srcs(plan, i) {
        var j :| i <= j < |plan| && plan[j].src == n;
        assert j != i;
        assert n in Srcs(plan, i + 1);
      }
    }
  }

  lemma MidwayStep(d0: Dir, plan: seq<Move>, i: nat, d: Dir)
    requires i < |plan| && WellFormed(d0, plan) && Safe(d0, plan)
    requires Midway(d0, plan, i, d)
    ensures RenameEntry(d, plan[i].src, plan[i].dst).Some?
    ensures Midway(d0, plan, i + 1, RenameEntry(d, plan[i].src, plan[i].dst).value)
  {
    StepAllowed(d0, plan, i, d);
    RenameMoves(d, plan[i].src, plan[i].dst);
    var d1 := RenameEntry(d, plan[i].src, plan[i].dst).value;
    StepKeepsDone(d0, plan, i, d, d1);
    StepKeepsPending(d0, plan, i, d, d1);
    StepKeepsOthers(d0, plan, i, d, d1);
    StepAddsNothing(d0, plan, i, d, d1);
  }

  lemma {:induction false} SafeRunFinishes(d0: Dir, plan: seq<Move>, i: nat, d: Dir)
    requires i <= |plan| && WellFormed(d0, plan) && Safe(d0, plan)
    requires Midway(d0, plan, i, d)
    ensures ApplyFrom(d, plan, i).Finished?
    ensures Midway(d0, plan, |plan|, ApplyFrom(d, plan, i).dir)
    decreases |plan| - i
  {
    if i < |plan| {
      MidwayStep(d0, plan, i, d);
      var d1 := RenameEntry(d, plan[i].src, plan[i].dst).value;
      assert ApplyFrom(d, plan, i) == ApplyFrom(d1, plan, i + 1);
      SafeRunFinishes(d0, plan, i + 1, d1);
    }
  }

  /** A safe plan, carried out rename by rename, renumbers the directory. */
  lemma SafePlanRenumbers(d0: Dir, plan: seq<Move>)
    requires WellFormed(d0, plan) && Safe(d0, plan)
    ensures ApplyFrom(d0, plan, 0).Finished?
    ensures Renumbered(d0, plan, ApplyFrom(d0, plan, 0).dir)
  {
    assert Midway(d0, plan, 0, d0);
    SafeRunFinishes(d0, plan, 0, d0);
  }

  lemma PlanIsWellFormed(d: Dir, names: seq<string>, suffix: string)
    requires IsListing(d, names)
    ensures WellFormed(d, Plan(d, names, suffix))
  {
    var plan := Plan(d, names, suffix);
    PlanRenamesEachFileOnce(d, names, suffix);
    PlanTargetsAreOneToN(d, names, suffix);
    forall n | n in d && d[n].File? ensures n in Srcs(plan, 0) {
      var i :| 0 <= i < |plan| && plan[i].src == n;
    }
  }

  /** A safe plan built from a listing renumbers the directory. */
  lemma SafeBatchRenumbers(d: Dir, names: seq<string>, suffix: string)
    requires IsListing(d, names) && Safe(d, Plan(d, names, suffix))
    ensures BatchRename(d, names, suffix).Finished?
    ensures Renumbered(d, Plan(d, names, suffix), BatchRename(d, names, suffix).dir)
  {
    PlanIsWellFormed(d, names, suffix);
    SafePlanRenumbers(d, Plan(d, names, suffix));
  }

  /** The rename utility with the check it lacks: it refuses, touching
      nothing, a plan that would rename a file onto one not yet renamed or
      onto a sub-directory, and otherwise renumbers the directory. */
  function RenumberFiles(d: Dir, names: seq<string>, suffix: string): (r: Option<Dir>)
    requires IsListing(d, names)
    ensures r.Some? <==> Safe(d, Plan(d, names, suffix))
    ensures r.Some? ==> Renumbered(d, Plan(d, names, suffix), r.value)
  {
    var plan := Plan(d, names, suffix);
    if Safe(d, plan) then
      SafeBatchRenumbers(d, names, suffix);
      Some(BatchRename(d, names, suffix).dir)
    else None
  }

  /** No clash is possible while no entry already carries a numbered name
      with the suffix. */
  lemma NoNumberedNamesIsSafe(d: Dir, names: seq<string>, suffix: string)
    requires IsListing(d, names)
    requires forall k: nat :: NumberedName(k, suffix) !in d
    ensures Safe(d, Plan(d, names, suffix))
  {
    PlanRenamesEachFileOnce(d, names, suffix);
  }

  // ---------------------------------------------------------------------
  // The clash

  lemma NumberedKey(n: nat, ext: string)
    requires NoDigits(ext) && NoUpper(ext)
    ensures NaturalKey(NatToString(n) + ext) == [Txt(""), Num(n), Txt(ext)]
  {
    var k := [Txt(""), Num(n), Txt(ext)];
    NumberedShape(n, ext, k);
    NumberedSpelling(n, ext, k);
    KeyOfThree("", NatToString(n), ext, k);
    assert "" + NatToString(n) + ext == NatToString(n) + ext;
  }

  lemma NumberedShape(n: nat, ext: string, k: Key)
    requires NoDigits(ext) && NoUpper(ext) && k == [Txt(""), Num(n), Txt(ext)]
    ensures WellShaped(k)
  {
    assert k[2..] == [Txt(ext)];
  }

  lemma NumberedSpelling(n: nat, ext: string, k: Key)
    requires NoUpper(ext) && k == [Txt(""), Num(n), Txt(ext)]
    ensures Spells(["", NatToString(n), ext], k)
  {
    LowerAllKeepsLowercase(ext);
    NatToStringRoundTrip(n);
  }

  lemma NumberedKeyLess(m: nat, n: nat, ext: string)
    requires m < n
    ensures KeyLess([Txt(""), Num(m), Txt(ext)], [Txt(""), Num(n), Txt(ext)])
  {
    var a, b := [Txt(""), Num(m), Txt(ext)], [Txt(""), Num(n), Txt(ext)];
    assert a[1..] == [Num(m), Txt(ext)] && b[1..] == [Num(n), Txt(ext)];
  }

  lemma SortTwo<T>(x: T, y: T, key: T -> Key)
    requires KeyLess(key(x), key(y))
    ensures SortBy([x, y], key) == [x, y]
  {
    var kx, ky := key(x), key(y);
    SegLessIsStrictTotalOrder();
    LexIrreflexive(kx, SegLess);
    if KeyLess(ky, kx) {
      LexTransitive(kx, ky, kx, SegLess);
    }
    var xs := [x, y];
    assert SortedBy(xs, key);
    SortedUnique(xs, SortBy(xs, key), key);
  }

  /** Two files numbered 0 and 1 with the suffix, renumbered with that
      suffix: the first is renamed onto the second, whose content is lost,
      and the second rename then moves the surviving file to number 2.
      Nothing raises. */
  lemma ClobberTwoFiles(d: Dir, names: seq<string>, suffix: string)
    requires NoDigits("." + suffix) && NoUpper("." + suffix)
    requires d == map[NumberedName(0, suffix) := File(0), NumberedName(1, suffix) := File(1)]
    requires names == [NumberedName(0, suffix), NumberedName(1, suffix)]
    ensures Plan(d, names, suffix) == [Move(NumberedName(0, suffix), NumberedName(1, suffix)),
                                       Move(NumberedName(1, suffix), NumberedName(2, suffix))]
    ensures BatchRename(d, names, suffix) == Finished(map[NumberedName(2, suffix) := File(0)])
    ensures !Safe(d, Plan(d, names, suffix))
  {
    var zero, one, two := NumberedName(0, suffix), NumberedName(1, suffix), NumberedName(2, suffix);
    NumberedNameInjective(0, 1, suffix);
    NumberedNameInjective(1, 2, suffix);
    NumberedNameInjective(0, 2, suffix);
    ClobberPlan(d, names, suffix);
    var plan := Plan(d, names, suffix);
    assert plan == [Move(zero, one), Move(one, two)];
    RenameChain(d, zero, one, two, plan);
    assert BatchRename(d, names, suffix) == ApplyFrom(d, plan, 0);
    assert plan[0].dst == plan[1].src;
  }

  lemma ClobberPlan(d: Dir, names: seq<string>, suffix: string)
    requires NoDigits("." + suffix) && NoUpper("." + suffix)
    requires d == map[NumberedName(0, suffix) := File(0), NumberedName(1, suffix) := File(1)]
    requires names == [NumberedName(0, suffix), NumberedName(1, suffix)]
    ensures Plan(d, names, suffix) == [Move(NumberedName(0, suffix), NumberedName(1, suffix)),
                                       Move(NumberedName(1, suffix), NumberedName(2, suffix))]
  {
    TwoFilesListed(d, names, suffix);
    TwoNamesSorted(names, suffix);
    assert Plan(d, names, suffix) == Numbered(names, suffix);
    NumberedTwo(names, suffix);
  }

  lemma NumberedTwo(names: seq<string>, suffix: string)
    requires names == [NumberedName(0, suffix), NumberedName(1, suffix)]
    ensures Numbered(names, suffix) == [Move(NumberedName(0, suffix), NumberedName(1, suffix)),
                                        Move(NumberedName(1, suffix), NumberedName(2, suffix))]
  {
    var plan := Numbered(names, suffix);
    assert plan[0] == Move(names[0], NumberedName(1, suffix));
    assert plan[1] == Move(names[1], NumberedName(2, suffix));
  }

  lemma TwoNamesSorted(names: seq<string>, suffix: string)
    requires NoDigits("." + suffix) && NoUpper("." + suffix)
    requires names == [NumberedName(0, suffix), NumberedName(1, suffix)]
    ensures SortBy(names, NaturalKey) == names
  {
    NumberedNamesAscend(suffix, names[0], names[1]);
    SortTwo(names[0], names[1], NaturalKey);
  }

  lemma TwoFilesListed(d: Dir, names: seq<string>, suffix: string)
    requires d == map[NumberedName(0, suffix) := File(0), NumberedName(1, suffix) := File(1)]
    requires names == [NumberedName(0, suffix), NumberedName(1, suffix)]
    ensures RegularFiles(d, names) == names
  {
    NumberedNameInjective(0, 1, suffix);
    assert names[1..] == [NumberedName(1, suffix)];
  }

  lemma NumberedNamesAscend(suffix: string, zero: string, one: string)
    requires NoDigits("." + suffix) && NoUpper("." + suffix)
    requires zero == NumberedName(0, suffix) && one == NumberedName(1, suffix)
    ensures KeyLess(NaturalKey(zero), NaturalKey(one))
  {
    var ext := "." + suffix;
    assert zero == NatToString(0) + ext && one == NatToString(1) + ext;
    NumberedKey(0, ext);
    NumberedKey(1, ext);
    NumberedKeyLess(0, 1, ext);
  }

  /** Renaming a to b and then b to c, where b held a file of its own. */
  lemma RenameChain(d: Dir, a: string, b: string, c: string, plan: seq<Move>)
    requires a != b && b != c && a != c && plan == [Move(a, b), Move(b, c)]
    requires d == map[a := File(0), b := File(1)]
    ensures ApplyFrom(d, plan, 0) == Finished(map[c := File(0)])
  {
    var d1 := RenameEntry(d, a, b).value;
    assert d1 == map[b := File(0)];
    var d2 := RenameEntry(d1, b, c).value;
    assert d2 == map[c := File(0)];
    assert ApplyFrom(d1, plan, 1) == ApplyFrom(d2, plan, 2);
  }

  /** `0.jpg` and `1.jpg` renumbered with suffix `jpg` leave only `2.jpg`,
      holding what `0.jpg` held.
      The literals arrive as parameters fixed by the precondition, so the
      verifier does not unfold the key functions on literal strings; the
      lemma speaks of these values only. */
  lemma ClobberExample(d: Dir, names: seq<string>, suffix: string)
    requires suffix == "jpg"
    requires d == map["0.jpg" := File(0), "1.jpg" := File(1)] && names == ["0.jpg", "1.jpg"]
    ensures BatchRename(d, names, suffix) == Finished(map["2.jpg" := File(0)])
    ensures !Safe(d, Plan(d, names, suffix))
  {
    assert NumberedName(0, suffix) == "0.jpg";
    assert NumberedName(1, suffix) == "1.jpg";
    assert NumberedName(2, suffix) == "2.jpg";
    assert NoDigits("." + suffix) && NoUpper("." + suffix);
    ClobberTwoFiles(d, names, suffix);
  }
}
