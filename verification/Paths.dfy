/** Path resolution over a tree of directory entries. */
module Paths {
  import opened Arith
  import opened Wrappers
  import opened Signature
  import opened Directory

  const SLASH: byte := 47

  type Dirs = map<nat, seq<Entry>>

  /** The part of `s` before its first slash. */
  function FirstPart(s: seq<byte>): (p: seq<byte>)
    ensures |p| <= |s| && (forall i :: 0 <= i < |p| ==> s[i] == p[i] && s[i] != SLASH)
    ensures |p| < |s| ==> s[|p|] == SLASH
  {
    if s == [] || s[0] == SLASH then [] else [s[0]] + FirstPart(s[1..])
  }

  /** The pieces of `s` between slashes. */
  function Components(s: seq<byte>): seq<seq<byte>>
    decreases |s|
  {
    var part := FirstPart(s);
    if |part| == |s| then [part] else [part] + Components(s[|part| + 1..])
  }

  /** The inode that `name` denotes in directory `dir`. */
  ghost function FindIn(dirs: Dirs, dir: nat, name: seq<byte>): Option<nat> {
    if dir !in dirs || FindFrom(dirs[dir], name, 0) == 0 then None else Some(FindFrom(dirs[dir], name, 0))
  }

  /** Follows the names `parts` from inode `from`. */
  ghost function Follow(dirs: Dirs, from: nat, parts: seq<seq<byte>>): Option<nat>
    decreases |parts|
  {
    if parts == [] then Some(from)
    else
      match FindIn(dirs, from, parts[0])
      case None => None
      case Some(next) => Follow(dirs, next, parts[1..])
  }

  /** What an absolute path denotes. */
  ghost function Resolve(dirs: Dirs, path: seq<byte>): Option<nat> {
    if path == [] || path[0] != SLASH then None
    else if |path| == 1 then Some(0)
    else Follow(dirs, 0, Components(path[1..]))
  }

  lemma {:induction false} FirstPartUnique(p: seq<byte>, s: seq<byte>)
    requires |p| <= |s| && s[..|p|] == p
    requires forall i :: 0 <= i < |p| ==> p[i] != SLASH
    requires |p| < |s| ==> s[|p|] == SLASH
    ensures FirstPart(s) == p
  {
    if p != [] {
      assert s[1..][..|p| - 1] == p[1..];
      FirstPartUnique(p[1..], s[1..]);
    }
  }

  /** The first piece of a string extended with a slash and a name, and what is behind it. */
  lemma FirstPartOf(s: seq<byte>, name: seq<byte>)
    ensures var part, t := FirstPart(s), s + [SLASH] + name;
      && FirstPart(t) == part
      && t[|part| + 1..] == if |part| == |s| then name else s[|part| + 1..] + [SLASH] + name
  {
    hide FirstPart;
    var part, t := FirstPart(s), s + [SLASH] + name;
    FrontOf(s, name, |part|);
    FirstPartUnique(part, t);
  }

  lemma FrontOf(s: seq<byte>, name: seq<byte>, k: nat)
    requires k <= |s|
    ensures (s + [SLASH] + name)[..k] == s[..k] && (s + [SLASH] + name)[k] == if k == |s| then SLASH else s[k]
    ensures (s + [SLASH] + name)[k + 1..] == if k == |s| then name else s[k + 1..] + [SLASH] + name
  {
  }

  /** The pieces of a string extended with a slash and a name are its own pieces and that name. */
  lemma {:induction false} ComponentsSnoc(s: seq<byte>, name: seq<byte>)
    requires SLASH !in name
    ensures Components(s + [SLASH] + name) == Components(s) + [name]
    decreases |s|
  {
    hide FirstPart, Components;
    var part, t := FirstPart(s), s + [SLASH] + name;
    FirstPartOf(s, name);
    ComponentsOf(s);
    ComponentsOf(t);
    if |part| == |s| {
      FirstPartUnique(name, name);
      ComponentsOf(name);
      assert t[|part| + 1..] == name;
    } else {
      var rest := s[|part| + 1..];
      assert t[|part| + 1..] == rest + [SLASH] + name;
      ComponentsSnoc(rest, name);
      Regroup([part], Components(rest), [name]);
    }
  }

  lemma ComponentsOf(s: seq<byte>)
    ensures Components(s)
         == if |FirstPart(s)| == |s| then [FirstPart(s)] else [FirstPart(s)] + Components(s[|FirstPart(s)| + 1..])
  {
  }

  lemma Regroup(a: seq<seq<byte>>, b: seq<seq<byte>>, c: seq<seq<byte>>)
    ensures a + b + c == a + (b + c)
  {
  }

  lemma {:induction false} FollowSnoc(dirs: Dirs, from: nat, parts: seq<seq<byte>>, name: seq<byte>)
    ensures Follow(dirs, from, parts + [name])
         == match Follow(dirs, from, parts) case None => None case Some(d) => FindIn(dirs, d, name)
    decreases |parts|
  {
    if parts == [] {
      assert parts + [name] == [name];
    } else {
      assert (parts + [name])[0] == parts[0] && (parts + [name])[1..] == parts[1..] + [name];
      match FindIn(dirs, from, parts[0])
      case None =>
      case Some(next) => FollowSnoc(dirs, next, parts[1..], name);
    }
  }

  /** A slash denotes the root, and a name below a path what the directory at the path says. */
  lemma ResolveChild(dirs: Dirs, path: seq<byte>, name: seq<byte>)
    requires path != [] && path[0] == SLASH && SLASH !in name
    ensures |path| == 1 ==> Resolve(dirs, path) == Some(0)
    ensures |path| > 1 ==>
              (Resolve(dirs, path + [SLASH] + name)
               == match Resolve(dirs, path) case None => None case Some(d) => FindIn(dirs, d, name))
    ensures name != [] ==> Resolve(dirs, [SLASH] + name) == FindIn(dirs, 0, name)
  {
    if |path| > 1 {
      assert (path + [SLASH] + name)[1..] == path[1..] + [SLASH] + name;
      ComponentsSnoc(path[1..], name);
      FollowSnoc(dirs, 0, Components(path[1..]), name);
    }
    assert ([SLASH] + name)[1..] == name;
    FirstPartUnique(name, name);
    assert Components(name) == [name];
    assert Follow(dirs, 0, [name]) == FindIn(dirs, 0, name);
  }

  /** An entry appended under a name not yet in use changes the lookup of that name only. */
  lemma {:induction false} FindAppended(entries: seq<Entry>, e: Entry, name: seq<byte>, k: nat)
    requires FindFrom(entries, e.name, k) == 0 && Numbered(entries) && e.inodeNo != 0
    requires k <= |entries|
    ensures FindFrom(entries + [e], name, k) == if name == e.name then e.inodeNo else FindFrom(entries, name, k)
    decreases |entries| - k
  {
    if k < |entries| {
      FindAppended(entries, e, name, k + 1);
    } else {
      assert (entries + [e])[k] == e;
      assert FindFrom(entries + [e], name, k + 1) == 0;
    }
  }

  /** `more` has every directory entry of `dirs`. */
  ghost predicate Extends(dirs: Dirs, more: Dirs) {
    forall d, name :: FindIn(dirs, d, name).Some? ==> FindIn(more, d, name) == FindIn(dirs, d, name)
  }

  /** Paths that resolve go on resolving to the same inode when entries are added. */
  lemma {:induction false} FollowExtends(dirs: Dirs, more: Dirs, from: nat, parts: seq<seq<byte>>)
    requires Extends(dirs, more)
    ensures Follow(dirs, from, parts).Some? ==> Follow(more, from, parts) == Follow(dirs, from, parts)
    decreases |parts|
  {
    if parts != [] && FindIn(dirs, from, parts[0]).Some? {
      FollowExtends(dirs, more, FindIn(dirs, from, parts[0]).value, parts[1..]);
    }
  }
}
