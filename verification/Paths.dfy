/**
  Path normalisation and mount lookup (filesystem/fs/src/pathbuf.rs,
  filesystem/fs/src/dentry.rs).
*/
module Paths {
  import opened Wrappers

  /** The components of a normalised absolute path. */
  type PathBuf = seq<string>

  /* ---------- Splitting and printing ---------- */

  /** `split("/")`: always at least one piece. */
  function Split(s: string): (r: seq<string>)
    ensures |r| > 0
  {
    if s == "" then [""]
    else if s[0] == '/' then [""] + Split(s[1..])
    else
      var rest := Split(s[1..]);
      [[s[0]] + rest[0]] + rest[1..]
  }

  /** What one piece does to the components so far. */
  function Visit(pb: PathBuf, piece: string): PathBuf {
    if piece == "." || piece == "" then pb
    else if piece == ".." then (if pb == [] then [] else pb[..|pb| - 1])
    else pb + [piece]
  }

  function VisitAll(pb: PathBuf, pieces: seq<string>): PathBuf
    decreases |pieces|
  {
    if pieces == [] then pb else VisitAll(Visit(pb, pieces[0]), pieces[1..])
  }

  predicate Absolute(path: string) {
    path != "" && path[0] == '/'
  }

  function Join(pb: PathBuf, path: string): PathBuf {
    VisitAll(if Absolute(path) then [] else pb, Split(path))
  }

  /** The components separated by slashes. */
  function Joined(pb: PathBuf): string {
    if pb == [] then "" else if |pb| == 1 then pb[0] else pb[0] + "/" + Joined(pb[1..])
  }

  function Print(pb: PathBuf): string {
    "/" + Joined(pb)
  }

  /* ---------- Normal form ---------- */

  predicate Plain(piece: string) {
    piece != "" && piece != "." && piece != ".." && '/' !in piece
  }

  ghost predicate Clean(pb: PathBuf) {
    forall c :: c in pb ==> Plain(c)
  }

  lemma {:induction false} SplitHasNoSlash(s: string)
    ensures forall p :: p in Split(s) ==> '/' !in p
  {
    if s != "" {
      SplitHasNoSlash(s[1..]);
      var rest := Split(s[1..]);
      assert rest[0] in rest;
      assert forall p :: p in rest[1..] ==> p in rest;
    }
  }

  lemma {:induction false} VisitAllClean(pb: PathBuf, pieces: seq<string>)
    requires Clean(pb) && forall p :: p in pieces ==> '/' !in p
    ensures Clean(VisitAll(pb, pieces))
    decreases |pieces|
  {
    if pieces != [] {
      assert pieces[0] in pieces;
      VisitAllClean(Visit(pb, pieces[0]), pieces[1..]);
    }
  }

  /** Joining anything to a normalised path gives a normalised path. */
  lemma JoinIsClean(pb: PathBuf, path: string)
    requires Clean(pb)
    ensures Clean(Join(pb, path))
  {
    SplitHasNoSlash(path);
    VisitAllClean(if Absolute(path) then [] else pb, Split(path));
  }

  /* ---------- Round trip ---------- */

  lemma {:induction false} SplitConcat(a: string, b: string)
    ensures Split(a + "/" + b) == Split(a) + Split(b)
  {
    var s := a + "/" + b;
    if a == "" {
      assert s[1..] == b;
    } else {
      assert s[1..] == a[1..] + "/" + b;
      SplitConcat(a[1..], b);
    }
  }

  lemma {:induction false} SplitPlain(c: string)
    requires '/' !in c
    ensures Split(c) == [c]
  {
    if c != "" {
      assert c[0] in c;
      SplitPlain(c[1..]);
      assert [c[0]] + c[1..] == c;
    }
  }

  lemma {:induction false} VisitAllConcat(pb: PathBuf, xs: seq<string>, ys: seq<string>)
    ensures VisitAll(pb, xs + ys) == VisitAll(VisitAll(pb, xs), ys)
    decreases |xs|
  {
    if xs == [] {
      assert xs + ys == ys;
    } else {
      assert (xs + ys)[1..] == xs[1..] + ys;
      VisitAllConcat(Visit(pb, xs[0]), xs[1..], ys);
    }
  }

  lemma {:induction false} SplitJoined(pb: PathBuf)
    requires Clean(pb) && pb != []
    ensures Split(Joined(pb)) == pb
  {
    assert pb[0] in pb;
    SplitPlain(pb[0]);
    if |pb| > 1 {
      SplitConcat(pb[0], Joined(pb[1..]));
      SplitJoined(pb[1..]);
    }
  }

  lemma {:induction false} VisitPlain(pb: PathBuf, pieces: seq<string>)
    requires Clean(pieces)
    ensures VisitAll(pb, pieces) == pb + pieces
    decreases |pieces|
  {
    if pieces != [] {
      assert pieces[0] in pieces;
      VisitPlain(Visit(pb, pieces[0]), pieces[1..]);
    }
  }

  /** Parsing the printed form gives the path back, whatever it is joined to. */
  lemma PrintRoundTrip(base: PathBuf, pb: PathBuf)
    requires Clean(pb)
    ensures Join(base, Print(pb)) == pb
  {
    var s := Print(pb);
    assert s[0] == '/' && s == "" + "/" + Joined(pb);
    SplitConcat("", Joined(pb));
    if pb == [] {
      assert VisitAll([], ["", ""]) == [];
    } else {
      SplitJoined(pb);
      VisitAllConcat([], [""], pb);
      assert VisitAll([], [""]) == [];
      VisitPlain([], pb);
    }
  }

  /** A path joined in two steps is the path joined at once. */
  lemma JoinInSteps(pb: PathBuf, a: string, b: string)
    requires a != "" && !Absolute(b)
    ensures Join(pb, a + "/" + b) == Join(Join(pb, a), b)
  {
    var s := a + "/" + b;
    assert s[0] == a[0];
    SplitConcat(a, b);
    VisitAllConcat(if Absolute(a) then [] else pb, Split(a), Split(b));
  }

  /* ---------- What each piece means ---------- */

  /** A name goes one level down. */
  lemma JoinName(pb: PathBuf, c: string)
    requires Plain(c)
    ensures Join(pb, c) == pb + [c]
  {
    assert c[0] in c;
    SplitPlain(c);
    assert VisitAll(pb, [c]) == VisitAll(Visit(pb, c), [c][1..]);
  }

  /** Two dots go one level up, and stay at the root. */
  lemma JoinParent(pb: PathBuf)
    ensures Join(pb, "..") == if pb == [] then [] else pb[..|pb| - 1]
  {
    SplitPlain("..");
    assert VisitAll(pb, [".."]) == VisitAll(Visit(pb, ".."), [".."][1..]);
  }

  /** One dot and the empty path stay, and a slash goes to the root. */
  lemma JoinStays(pb: PathBuf)
    ensures Join(pb, ".") == Join(pb, "") == pb && Join(pb, "/") == []
  {
    SplitPlain(".");
    SplitPlain("");
    SplitConcat("", "");
    assert "" + "/" + "" == "/" && [""] + [""] == ["", ""];
    assert VisitAll(pb, ["."]) == VisitAll(Visit(pb, "."), ["."][1..]);
    assert VisitAll(pb, [""]) == VisitAll(Visit(pb, ""), [""][1..]);
    assert VisitAll([], ["", ""]) == VisitAll([], ["", ""][1..]);
  }

  /** A name followed by two dots is as good as nothing. */
  lemma JoinCancels(pb: PathBuf, c: string, b: string)
    requires Plain(c) && !Absolute(b)
    ensures Join(pb, c + "/../" + b) == Join(pb, b)
  {
    assert c[0] in c;
    assert c + "/../" + b == (c + "/" + "..") + "/" + b;
    JoinInSteps(pb, c + "/" + "..", b);
    JoinInSteps(pb, c, "..");
    JoinName(pb, c);
    JoinParent(pb + [c]);
  }

  /** An absolute path forgets where it is joined, and a doubled slash is one. */
  lemma JoinAbsolute(pb: PathBuf, a: string, b: string)
    ensures Join(pb, "/" + a) == Join([], a)
    ensures a != "" ==> Join(pb, a + "//" + b) == Join(pb, a + "/" + b)
  {
    assert "" + "/" + a == "/" + a;
    SplitConcat("", a);
    VisitAllConcat([], [""], Split(a));
    assert VisitAll([], [""]) == VisitAll([], [""][1..]);
    if a != "" {
      assert a + "//" + b == a + "/" + ("/" + b) && "" + "/" + b == "/" + b;
      SplitConcat(a, "/" + b);
      SplitConcat("", b);
      SplitConcat(a, b);
      var start := if Absolute(a) then [] else pb;
      VisitAllConcat(start, Split(a), [""] + Split(b));
      VisitAllConcat(VisitAll(start, Split(a)), [""], Split(b));
      VisitAllConcat(start, Split(a), Split(b));
      assert VisitAll(VisitAll(start, Split(a)), [""]) == VisitAll(VisitAll(start, Split(a)), [""][1..]);
      assert (a + "//" + b)[0] == a[0] == (a + "/" + b)[0];
    }
  }

  /** The loop of `join` over the pieces. */
  method JoinPieces(pb: PathBuf, path: string) returns (r: PathBuf)
    ensures r == Join(pb, path)
    ensures Clean(pb) ==> Clean(r)
  {
    ghost var clean := Clean(pb);
    if clean {
      JoinIsClean(pb, path);
    }
    r := if Absolute(path) then [] else pb;
    var pieces := Split(path);
    for i := 0 to |pieces|
      invariant Join(pb, path) == VisitAll(r, pieces[i..])
    {
      assert pieces[i..][1..] == pieces[i + 1..];
      if pieces[i] == "." || pieces[i] == "" {
      } else if pieces[i] == ".." {
        if r != [] {
          r := r[..|r| - 1];
        }
      } else {
        r := r + [pieces[i]];
      }
    }
  }

  /* ---------- Mounts ---------- */

  /** One mounted file system, named by `fs`. */
  datatype Mount = Mount(path: PathBuf, fs: nat)

  predicate StartsWith(path: PathBuf, target: PathBuf) {
    target <= path
  }

  function TrimStart(path: PathBuf, target: PathBuf): PathBuf {
    if StartsWith(path, target) then path[|target|..] else path
  }

  /** `get_mounted`: the last entry whose path is a prefix; without one the kernel panics. */
  function GetMounted(ms: seq<Mount>, path: PathBuf): Option<(nat, PathBuf)> {
    if ms == [] then None
    else
      var m := ms[|ms| - 1];
      if StartsWith(path, m.path) then Some((m.fs, TrimStart(path, m.path)))
      else GetMounted(ms[..|ms| - 1], path)
  }

  function MountFs(ms: seq<Mount>, fs: nat, path: string): seq<Mount> {
    ms + [Mount(Join([], path), fs)]
  }

  function Umount(ms: seq<Mount>, path: PathBuf): seq<Mount> {
    if ms == [] then []
    else if ms[0].path != path then [ms[0]] + Umount(ms[1..], path)
    else Umount(ms[1..], path)
  }

  /** The entry that serves a path: it is a prefix, and no newer entry is. */
  ghost predicate Serves(ms: seq<Mount>, k: nat, path: PathBuf) {
    k < |ms| && ms[k].path <= path && forall j :: k < j < |ms| ==> !(ms[j].path <= path)
  }

  /**
    The lookup answers from the newest matching mount, with the rest of the path, and fails
    exactly when no mount matches.
  */
  lemma {:induction false} GetMountedIsNewest(ms: seq<Mount>, path: PathBuf)
    ensures match GetMounted(ms, path)
      case None => forall j :: 0 <= j < |ms| ==> !(ms[j].path <= path)
      case Some((fs, rest)) =>
        exists k: nat :: Serves(ms, k, path) && ms[k].fs == fs && ms[k].path + rest == path
  {
    if ms != [] {
      var n := |ms| - 1;
      if StartsWith(path, ms[n].path) {
        assert Serves(ms, n, path);
      } else {
        GetMountedIsNewest(ms[..n], path);
        if GetMounted(ms[..n], path).Some? {
          var (fs, rest) := GetMounted(ms[..n], path).value;
          var k: nat :| Serves(ms[..n], k, path) && ms[..n][k].fs == fs && ms[..n][k].path + rest == path;
          assert Serves(ms, k, path);
        }
      }
    }
  }

  lemma {:induction false} UmountConcat(xs: seq<Mount>, ys: seq<Mount>, path: PathBuf)
    ensures Umount(xs + ys, path) == Umount(xs, path) + Umount(ys, path)
  {
    if xs == [] {
      assert xs + ys == ys;
    } else {
      assert (xs + ys)[1..] == xs[1..] + ys;
      UmountConcat(xs[1..], ys, path);
    }
  }

  lemma {:induction false} UmountKeepsOthers(ms: seq<Mount>, path: PathBuf)
    ensures |Umount(ms, path)| <= |ms|
    ensures Umount(ms, path) == ms <==> forall m :: m in ms ==> m.path != path
    ensures forall m :: m in Umount(ms, path) <==> m in ms && m.path != path
  {
    if ms != [] {
      UmountKeepsOthers(ms[1..], path);
      var out := Umount(ms, path);
      if ms[0].path == path {
        assert ms[0] in ms;
      } else {
        assert out[1..] == Umount(ms[1..], path) && ms == [ms[0]] + ms[1..];
      }
    }
  }

  /** Unmounting undoes a mount if and only if nothing was mounted at that very path before. */
  lemma UmountUndoesMountIff(ms: seq<Mount>, fs: nat, path: string)
    ensures Umount(MountFs(ms, fs, path), Join([], path)) == ms
            <==> forall m :: m in ms ==> m.path != Join([], path)
  {
    var p := Join([], path);
    UmountConcat(ms, [Mount(p, fs)], p);
    assert [Mount(p, fs)][1..] == [];
    assert Umount([Mount(p, fs)], p) == [];
    UmountKeepsOthers(ms, p);
  }

  /** Two mounts at one path: a single unmount removes both. */
  lemma UmountTakesBothExample(first: nat, second: nat, path: string)
    ensures var ms := MountFs(MountFs([], first, path), second, path);
      Umount(ms, Join([], path)) == [] && Umount(ms, Join([], path)) != MountFs([], first, path)
  {
    var p := Join([], path);
    UmountConcat([Mount(p, first)], [Mount(p, second)], p);
    assert [Mount(p, first)][1..] == [] && [Mount(p, second)][1..] == [];
    assert [] + [Mount(p, first)] == [Mount(p, first)];
  }

  /** Under a new mount point the new file system answers; elsewhere nothing changes. */
  lemma MountTakesOver(ms: seq<Mount>, fs: nat, mountPoint: string, path: PathBuf)
    ensures GetMounted(MountFs(ms, fs, mountPoint), path)
            == if Join([], mountPoint) <= path
               then Some((fs, path[|Join([], mountPoint)|..])) else GetMounted(ms, path)
  {
    var all := MountFs(ms, fs, mountPoint);
    assert all[..|all| - 1] == ms;
  }

  /* ---------- The global mount list, updated in place ---------- */

  class MountTable {
    var mounted: seq<Mount>

    method Lookup(path: PathBuf) returns (r: Option<(nat, PathBuf)>)
      ensures r == GetMounted(mounted, path)
    {
      var i := |mounted|;
      assert mounted[..i] == mounted;
      while i > 0
        invariant i <= |mounted|
        invariant GetMounted(mounted, path) == GetMounted(mounted[..i], path)
      {
        assert mounted[..i][..i - 1] == mounted[..i - 1];
        i := i - 1;
        if StartsWith(path, mounted[i].path) {
          return Some((mounted[i].fs, TrimStart(path, mounted[i].path)));
        }
      }
      return None;
    }

    method AddMount(fs: nat, path: string)
      modifies this
      ensures mounted == MountFs(old(mounted), fs, path)
      ensures forall p :: StartsWith(p, Join([], path)) ==>
        GetMounted(mounted, p) == Some((fs, p[|Join([], path)|..]))
      ensures forall p :: !StartsWith(p, Join([], path)) ==> GetMounted(mounted, p) == GetMounted(old(mounted), p)
    {
      forall p ensures GetMounted(MountFs(mounted, fs, path), p)
        == if StartsWith(p, Join([], path)) then Some((fs, p[|Join([], path)|..])) else GetMounted(mounted, p)
      {
        MountTakesOver(mounted, fs, path, p);
      }
      var at := JoinPieces([], path);
      mounted := mounted + [Mount(at, fs)];
    }

    method RemoveMounts(path: PathBuf)
      modifies this
      ensures mounted == Umount(old(mounted), path)
    {
      var all := mounted;
      mounted := [];
      for i := 0 to |all|
        invariant mounted == Umount(all[..i], path)
      {
        assert all[..i + 1] == all[..i] + [all[i]];
        UmountConcat(all[..i], [all[i]], path);
        assert [all[i]][1..] == [];
        if all[i].path != path {
          mounted := mounted + [all[i]];
        }
      }
      assert all[..|all|] == all;
    }
  }
}
