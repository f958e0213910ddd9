/** What names are found after a run: those that were there before, and those whose creation was answered with
    success. */
module RunNames {
  import opened Arith
  import opened Wrappers
  import opened InodeTable
  import opened Signature
  import opened Directory
  import opened Paths
  import opened FsState
  import opened FileSystem
  import opened Creation
  import opened Runs

  /** The components of the parent of a path, as a creation takes it: none for the root. */
  ghost function ParentParts(name: seq<byte>): seq<seq<byte>>
    requires name != [] && name[0] == SLASH
  {
    if |ParentPath(name)| == 1 then [] else Components(ParentPath(name)[1..])
  }

  /** The components of what a creation enters. */
  ghost function CreatedParts(name: seq<byte>): seq<seq<byte>>
    requires name != [] && name[0] == SLASH
  {
    ParentParts(name) + [BaseName(name)]
  }

  lemma ParentFollowed(dirs: Dirs, name: seq<byte>)
    requires name != [] && name[0] == SLASH
    ensures Resolve(dirs, ParentPath(name)) == Follow(dirs, 0, ParentParts(name))
  {
    hide ParentLength;
    PathParts(name);
    assert ParentPath(name) != [] && ParentPath(name)[0] == SLASH;
  }

  /** What a directory has an entry for is a live inode that this entry owns. */
  lemma EntryOwns(kinds: seq<Kind>, tree: Tree, d: nat, name: seq<byte>) returns (k: nat)
    requires TreeShape(kinds, tree) && FindIn(tree.dirs, d, name).Some?
    ensures d in tree.dirs && k < |tree.dirs[d]| && tree.dirs[d][k] == Entry(name, FindIn(tree.dirs, d, name).value)
    ensures var i := FindIn(tree.dirs, d, name).value;
      2 <= i < |kinds| && kinds[i] != Kind.Empty && OwnedBy(tree.owner, i, d, k)
  {
    EntriesNumbered(kinds, tree, d);
    FoundIffPresent(tree.dirs[d], name, 0);
    k :| 0 <= k < |tree.dirs[d]| && tree.dirs[d][k].name == name;
    assert Named(kinds, tree.dirs, tree.dirs[d][k].inodeNo);
  }

  lemma EntriesNumbered(kinds: seq<Kind>, tree: Tree, d: nat)
    requires TreeShape(kinds, tree) && d in tree.dirs
    ensures Numbered(tree.dirs[d])
  {
    forall k | 0 <= k < |tree.dirs[d]| ensures tree.dirs[d][k].inodeNo != 0 {
      assert Named(kinds, tree.dirs, tree.dirs[d][k].inodeNo);
    }
  }

  lemma Front(parts: seq<seq<byte>>)
    requires parts != []
    ensures parts == parts[..|parts| - 1] + [parts[|parts| - 1]]
  {
  }

  /** The last step of a path that leads somewhere. */
  lemma LastStep(dirs: Dirs, parts: seq<seq<byte>>)
    requires parts != []
    ensures Follow(dirs, 0, parts)
         == match Follow(dirs, 0, parts[..|parts| - 1])
            case None => None
            case Some(d) => FindIn(dirs, d, parts[|parts| - 1])
  {
    Front(parts);
    FollowSnoc(dirs, 0, parts[..|parts| - 1], parts[|parts| - 1]);
  }

  /** No two paths lead to the same inode. */
  lemma {:induction false} OnePath(kinds: seq<Kind>, tree: Tree, a: seq<seq<byte>>, b: seq<seq<byte>>)
    requires TreeShape(kinds, tree)
    requires Follow(tree.dirs, 0, a).Some? && Follow(tree.dirs, 0, a) == Follow(tree.dirs, 0, b)
    ensures a == b
    decreases |a| + |b|
  {
    hide Follow, FindIn, TreeShape;
    if a == [] && b == [] {
    } else if a == [] || b == [] {
      RootFollowed(tree.dirs);
      var c := if a == [] then b else a;
      LastStep(tree.dirs, c);
      var k := EntryOwns(kinds, tree, Follow(tree.dirs, 0, c[..|c| - 1]).value, c[|c| - 1]);
      assert false;
    } else {
      LastStep(tree.dirs, a);
      LastStep(tree.dirs, b);
      var k := EntryOwns(kinds, tree, Follow(tree.dirs, 0, a[..|a| - 1]).value, a[|a| - 1]);
      var m := EntryOwns(kinds, tree, Follow(tree.dirs, 0, b[..|b| - 1]).value, b[|b| - 1]);
      assert k == m;
      OnePath(kinds, tree, a[..|a| - 1], b[..|b| - 1]);
      Front(a);
      Front(b);
    }
  }

  lemma RootFollowed(dirs: Dirs)
    ensures Follow(dirs, 0, []) == Some(0)
  {
  }

  /** What a path leads to is the root or a live inode. */
  lemma FollowedLives(kinds: seq<Kind>, tree: Tree, parts: seq<seq<byte>>)
    requires TreeShape(kinds, tree) && Follow(tree.dirs, 0, parts).Some?
    ensures var i := Follow(tree.dirs, 0, parts).value; i == 0 || (2 <= i < |kinds| && kinds[i] != Kind.Empty)
  {
    hide Follow, FindIn, TreeShape;
    if parts == [] {
      RootFollowed(tree.dirs);
    } else {
      LastStep(tree.dirs, parts);
      var k := EntryOwns(kinds, tree, Follow(tree.dirs, 0, parts[..|parts| - 1]).value, parts[|parts| - 1]);
    }
  }

  /** One lookup in a tree that has one more entry. */
  lemma FindGrown(kinds: seq<Kind>, tree: Tree, p: nat, base: seq<byte>, x: nat, isDir: bool, d: nat, name: seq<byte>)
    requires TreeShape(kinds, tree) && p in tree.dirs && FindIn(tree.dirs, p, base).None?
    requires 2 <= x < |kinds| && kinds[x] == Kind.Empty
    ensures FindIn(WithEntry(tree, p, base, x, isDir).dirs, d, name)
         == if d == p && name == base then Some(x) else if d == x then None else FindIn(tree.dirs, d, name)
  {
    assert x !in tree.dirs;
    EntriesNumbered(kinds, tree, p);
    if d == p {
      FindAppended(tree.dirs[p], Entry(base, x), name, 0);
    }
  }

  /** A tree with one more entry has one more path: the one through that entry. */
  lemma {:induction false} FollowGrown(kinds: seq<Kind>, tree: Tree, p: nat, base: seq<byte>, x: nat, isDir: bool,
                                       parent: seq<seq<byte>>, parts: seq<seq<byte>>)
    requires TreeShape(kinds, tree) && p in tree.dirs && FindIn(tree.dirs, p, base).None?
    requires 2 <= x < |kinds| && kinds[x] == Kind.Empty && Follow(tree.dirs, 0, parent) == Some(p)
    ensures Follow(WithEntry(tree, p, base, x, isDir).dirs, 0, parts)
         == if parts == parent + [base] then Some(x) else Follow(tree.dirs, 0, parts)
    ensures Follow(tree.dirs, 0, parent + [base]) == None
    decreases |parts|
  {
    hide Follow, FindIn, TreeShape, WithEntry;
    var after := WithEntry(tree, p, base, x, isDir).dirs;
    FollowSnoc(tree.dirs, 0, parent, base);
    if parts == [] {
      RootFollowed(tree.dirs);
      RootFollowed(after);
    } else {
      var front, last := parts[..|parts| - 1], parts[|parts| - 1];
      Front(parts);
      FollowGrown(kinds, tree, p, base, x, isDir, parent, front);
      LastStep(tree.dirs, parts);
      LastStep(after, parts);
      if front == parent + [base] {
        FindGrown(kinds, tree, p, base, x, isDir, x, last);
        FollowedLives(kinds, tree, parent);
      } else if Follow(tree.dirs, 0, front).Some? {
        var d := Follow(tree.dirs, 0, front).value;
        FollowedLives(kinds, tree, front);
        FindGrown(kinds, tree, p, base, x, isDir, d, last);
        if d == p {
          OnePath(kinds, tree, front, parent);
        }
      }
    }
  }

  /** A creation, or none, as an operation of a run. */
  ghost predicate Creates(op: Op, answer: Answer, parts: seq<seq<byte>>) {
    && op.CreateOp? && answer == CreateAnswer(Created) && op.name != [] && op.name[0] == SLASH
    && CreatedParts(op.name) == parts
  }

  /** One step keeps the shape of the tree, and adds just the path that a successful creation enters. */
  lemma StepNames(r: nat, s: State, op: Op, answer: Answer, t: State, parts: seq<seq<byte>>)
    requires TreeShape(s.kinds, s.tree) && Next(r, s, op, answer, t)
    ensures TreeShape(t.kinds, t.tree)
    ensures Follow(t.tree.dirs, 0, parts).Some? <==> Follow(s.tree.dirs, 0, parts).Some? || Creates(op, answer, parts)
  {
    hide Follow, FindIn, TreeShape, CreatedFrom, CreatedParts;
    if op.CreateOp? {
      var x :| CreatedFrom(r, s, op.name, op.isDir, x, answer, t);
      CreationNames(r, s, op.name, op.isDir, x, answer, t, parts);
    }
  }

  lemma CreationNames(r: nat, s: State, name: seq<byte>, isDir: bool, x: nat, answer: Answer, t: State,
                      parts: seq<seq<byte>>)
    requires TreeShape(s.kinds, s.tree) && CreatedFrom(r, s, name, isDir, x, answer, t)
    ensures TreeShape(t.kinds, t.tree)
    ensures Follow(t.tree.dirs, 0, parts).Some? <==>
              Follow(s.tree.dirs, 0, parts).Some? || Creates(CreateOp(name, isDir), answer, parts)
  {
    hide Follow, FindIn, TreeShape, ContentsWith, BlocksForRecord, ParentPath, BaseName, ParentParts, WithEntry,
        Resolve;
    ParentFollowed(s.tree.dirs, name);
    if answer == CreateAnswer(Created) {
      var p, base := Resolve(s.tree.dirs, ParentPath(name)).value, BaseName(name);
      NoSuchEntry(s.kinds, s.tree, p, base);
      GrownShape(s.kinds, s.tree, p, base, x, if isDir then Dir else File);
      FollowGrown(s.kinds, s.tree, p, base, x, isDir, ParentParts(name), parts);
    }
  }

  lemma NoSuchEntry(kinds: seq<Kind>, tree: Tree, p: nat, base: seq<byte>)
    requires TreeShape(kinds, tree) && p in tree.dirs && FindIn(tree.dirs, p, base).None?
    ensures forall k :: 0 <= k < |tree.dirs[p]| ==> tree.dirs[p][k].name != base
  {
    EntriesNumbered(kinds, tree, p);
    FoundIffPresent(tree.dirs[p], base, 0);
  }

  /** After a run a path leads somewhere if and only if it did before, or some creation of the run that was answered
      with success has entered it. */
  lemma {:induction false} FoundIffCreated(r: nat, ops: seq<Op>, answers: seq<Answer>, states: seq<State>,
                                           parts: seq<seq<byte>>)
    requires IsRun(r, ops, answers, states) && TreeShape(states[0].kinds, states[0].tree)
    ensures TreeShape(states[|ops|].kinds, states[|ops|].tree)
    ensures Follow(states[|ops|].tree.dirs, 0, parts).Some? <==>
              || Follow(states[0].tree.dirs, 0, parts).Some?
              || exists i :: 0 <= i < |ops| && Creates(ops[i], answers[i], parts)
    decreases |ops|
  {
    hide Follow, TreeShape, Next, Creates;
    if ops != [] {
      var n := |ops| - 1;
      assert IsRun(r, ops[..n], answers[..n], states[..n + 1]);
      FoundIffCreated(r, ops[..n], answers[..n], states[..n + 1], parts);
      StepNames(r, states[n], ops[n], answers[n], states[n + 1], parts);
    }
  }

  /** Different strings have different components. */
  lemma {:induction false} ComponentsInjective(s: seq<byte>, t: seq<byte>)
    requires Components(s) == Components(t)
    ensures s == t
    decreases |s|
  {
    hide Components, FirstPart;
    ComponentsOf(s);
    ComponentsOf(t);
    ComponentsThere(s);
    ComponentsThere(t);
    var a, b := FirstPart(s), FirstPart(t);
    assert a == Components(s)[0] == b;
    if |a| == |s| || |b| == |t| {
      assert |Components(s)| == 1;
      assert s[..|a|] == s && t[..|b|] == t;
      TakePrefix(s);
      TakePrefix(t);
    } else {
      assert Components(s)[1..] == Components(s[|a| + 1..]) && Components(t)[1..] == Components(t[|b| + 1..]);
      ComponentsInjective(s[|a| + 1..], t[|b| + 1..]);
      TakePrefix(s);
      TakePrefix(t);
    }
  }

  lemma ComponentsThere(s: seq<byte>)
    ensures Components(s) != [] && (|FirstPart(s)| < |s| ==> |Components(s)| > 1)
  {
    ComponentsOf(s);
    if |FirstPart(s)| < |s| {
      ComponentsThere(s[|FirstPart(s)| + 1..]);
    }
  }

  lemma TakePrefix(s: seq<byte>)
    ensures |FirstPart(s)| == |s| ==> s == FirstPart(s)
    ensures |FirstPart(s)| < |s| ==> s == FirstPart(s) + [SLASH] + s[|FirstPart(s)| + 1..]
  {
    hide FirstPart;
    assert s[..|FirstPart(s)|] == FirstPart(s);
  }

  /** What a creation enters is what its path means, but for a path that begins with two slashes and has no other:
      that is taken for a name in the root. */
  lemma CreatedPartsOf(name: seq<byte>)
    requires name != [] && name[0] == SLASH
    ensures 1 <= ParentLength(name) <= |name| && SLASH !in BaseName(name)
    ensures Components(BaseName(name)) == [BaseName(name)]
    ensures ParentLength(name) != 2 ==> CreatedParts(name) == Components(name[1..])
    ensures ParentLength(name) <= 2 ==> CreatedParts(name) == [BaseName(name)]
    ensures ParentLength(name) == 1 ==> name == [SLASH] + BaseName(name)
    ensures ParentLength(name) == 2 ==> name == [SLASH, SLASH] + BaseName(name)
  {
    hide ParentLength, Components, BaseName, ParentPath, FirstPart;
    PathParts(name);
    AlonePart(BaseName(name));
    if ParentLength(name) <= 2 {
      InRootParts(name, BaseName(name));
    } else {
      DeepParts(name, ParentPath(name), BaseName(name));
    }
  }

  lemma AlonePart(base: seq<byte>)
    requires SLASH !in base
    ensures Components(base) == [base]
  {
    FirstPartUnique(base, base);
  }

  lemma InRootParts(name: seq<byte>, base: seq<byte>)
    ensures [] + [base] == [base] && (name == [SLASH] + base ==> name[1..] == base)
  {
  }

  lemma DeepParts(name: seq<byte>, parent: seq<byte>, base: seq<byte>)
    requires SLASH !in base && parent != [] && name == parent + [SLASH] + base
    ensures Components(parent[1..]) + [base] == Components(name[1..])
  {
    hide Components;
    assert name[1..] == parent[1..] + [SLASH] + base;
    ComponentsSnoc(parent[1..], base);
  }

  /** Only one place in a path has a slash, and none behind it. */
  lemma ParentLengthIs(path: seq<byte>, n: nat)
    requires 0 < n <= |path| && path[n - 1] == SLASH && forall i :: n <= i < |path| ==> path[i] != SLASH
    ensures ParentLength(path) == n
  {
    hide ParentLength;
    var m := ParentLength(path);
    assert !(m <= n - 1);
  }

  /** Which creations enter what a path means: those of the path itself, and for a name in the root those with a
      second slash in front. */
  lemma SameParts(name: seq<byte>, other: seq<byte>)
    requires |name| > 1 && name[0] == SLASH && ParentLength(name) != 2
    requires other != [] && other[0] == SLASH
    ensures CreatedParts(other) == Components(name[1..]) <==>
              other == name || (ParentLength(name) == 1 && other == [SLASH] + name)
  {
    hide ParentLength, Components, BaseName, CreatedParts;
    CreatedPartsOf(name);
    CreatedPartsOf(other);
    if other == [SLASH] + name && ParentLength(name) == 1 {
      DoubleSlash(name, other, BaseName(name), BaseName(other));
    }
    if CreatedParts(other) == Components(name[1..]) {
      if ParentLength(other) <= 2 {
        ComponentsInjective(name[1..], BaseName(other));
        PathParts(other);
        NameInRoot(name, BaseName(other));
      } else {
        ComponentsInjective(name[1..], other[1..]);
        SameRest(name, other);
      }
    }
  }

  lemma SameRest(name: seq<byte>, other: seq<byte>)
    requires name != [] && other != [] && name[0] == other[0] && name[1..] == other[1..]
    ensures name == other
  {
    assert name == [name[0]] + name[1..] && other == [other[0]] + other[1..];
  }

  lemma NameInRoot(name: seq<byte>, base: seq<byte>)
    requires name != [] && name[0] == SLASH && name[1..] == base && SLASH !in base
    ensures name == [SLASH] + base && [SLASH] + name == [SLASH, SLASH] + base && ParentLength(name) == 1
  {
    hide ParentLength;
    assert forall i :: 1 <= i < |name| ==> name[i] == base[i - 1];
    ParentLengthIs(name, 1);
  }

  lemma DoubleSlash(name: seq<byte>, other: seq<byte>, base: seq<byte>, otherBase: seq<byte>)
    requires name == [SLASH] + base && other == [SLASH] + name && SLASH !in base && otherBase == BaseName(other)
    ensures ParentLength(other) == 2 && otherBase == base
  {
    hide ParentLength;
    assert forall i :: 2 <= i < |other| ==> other[i] == base[i - 2];
    ParentLengthIs(other, 2);
  }

  /** The operation creates `name`, and is answered with success. */
  ghost predicate CreatesName(op: Op, answer: Answer, name: seq<byte>) {
    && op.CreateOp? && answer == CreateAnswer(Created)
    && (op.name == name || (ParentLength(name) == 1 && op.name == [SLASH] + name))
  }

  /** In a new volume, a path is found after a run if and only if its creation was answered with success in that run;
      a name in the root may have been created with a second slash in front. */
  lemma NameFound(r: nat, ops: seq<Op>, answers: seq<Answer>, states: seq<State>, name: seq<byte>)
    requires IsRun(r, ops, answers, states) && IsBlank(states[0])
    requires |name| > 1 && name[0] == SLASH && ParentLength(name) != 2
    ensures Resolve(states[|ops|].tree.dirs, name).Some? <==>
              exists i :: 0 <= i < |ops| && CreatesName(ops[i], answers[i], name)
  {
    hide Follow, TreeShape, CreatedParts, Components, ParentLength;
    var parts := Components(name[1..]);
    BlankNames(states[0], parts);
    ComponentsThere(name[1..]);
    FoundIffCreated(r, ops, answers, states, parts);
    forall i | 0 <= i < |ops| ensures Creates(ops[i], answers[i], parts) <==> CreatesName(ops[i], answers[i], name) {
      if ops[i].CreateOp? && answers[i] == CreateAnswer(Created) {
        Answered(r, ops, answers, states, i);
        SameParts(name, ops[i].name);
      }
    }
  }

  lemma Answered(r: nat, ops: seq<Op>, answers: seq<Answer>, states: seq<State>, i: nat)
    requires IsRun(r, ops, answers, states) && i < |ops| && ops[i].CreateOp?
    ensures ops[i].name != [] && ops[i].name[0] == SLASH
  {
    assert Next(r, states[i], ops[i], answers[i], states[i + 1]);
  }

  lemma BlankNames(s: State, parts: seq<seq<byte>>)
    requires IsBlank(s)
    ensures TreeShape(s.kinds, s.tree)
    ensures parts != [] ==> Follow(s.tree.dirs, 0, parts) == None
  {
  }
}
