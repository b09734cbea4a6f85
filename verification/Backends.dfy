/** Installing and removing the two injected libraries, the wrapper and the Vulkan layer manifest,
    one file operation at a time.  Every operation may fail, and the process may die before any of them. */
module Backends {
  import opened Common

  datatype Target = LayerLib | GlLib | Wrapper | Manifest

  /** What stands under the installed names. */
  type Files = map<Target, seq<Byte>>

  /** The payload directory; a library may be missing from it. */
  datatype Payload = Payload(layer: Option<seq<Byte>>, gl: Option<seq<Byte>>)
  {
    predicate Complete() {
      layer.Some? && gl.Some?
    }
  }

  /** The generated files. */
  datatype Texts = Texts(wrapper: seq<Byte>, manifest: seq<Byte>)

  function BytesFor(t: Target, p: Payload, texts: Texts): seq<Byte>
    requires p.Complete()
  {
    match t
    case LayerLib => p.layer.value
    case GlLib => p.gl.value
    case Wrapper => texts.wrapper
    case Manifest => texts.manifest
  }

  /** Every file is whole, and from one payload that was offered. */
  ghost predicate Whole(files: Files, offered: set<Payload>, texts: Texts) {
    forall t :: t in files ==> exists p :: p in offered && p.Complete() && files[t] == BytesFor(t, p, texts)
  }

  /** And no manifest without the library it names. */
  ghost predicate Consistent(files: Files, offered: set<Payload>, texts: Texts) {
    (Manifest in files ==> LayerLib in files) && Whole(files, offered, texts)
  }

  // ---- installing ------------------------------------------------------------------------------

  const INSTALL_ORDER := [LayerLib, GlLib, Wrapper, Manifest]

  /** After the first `n` files of an install. */
  function Stage(files: Files, p: Payload, texts: Texts, n: nat): Files
    requires p.Complete() && n <= 4
  {
    if n == 0 then files
    else Stage(files, p, texts, n - 1)[INSTALL_ORDER[n - 1] := BytesFor(INSTALL_ORDER[n - 1], p, texts)]
  }

  lemma {:induction false} StagesAreWhole(files: Files, offered: set<Payload>, p: Payload, texts: Texts, n: nat)
    requires Whole(files, offered, texts) && p.Complete() && n <= 4
    ensures Whole(Stage(files, p, texts, n), offered + {p}, texts)
  {
    if n == 0 {
      MoreWhole(files, offered, p, texts);
    } else {
      StagesAreWhole(files, offered, p, texts, n - 1);
      assert p in offered + {p};
    }
  }

  lemma MoreWhole(files: Files, offered: set<Payload>, p: Payload, texts: Texts)
    requires Whole(files, offered, texts)
    ensures Whole(files, offered + {p}, texts)
  {
    forall t | t in files ensures exists q :: q in offered + {p} && q.Complete() && files[t] == BytesFor(t, q, texts) {
      var q :| q in offered && q.Complete() && files[t] == BytesFor(t, q, texts);
      assert q in offered + {p};
    }
  }

  /** The library is there from the first stage on, and the manifest comes with the last. */
  lemma {:induction false} StagesAreConsistent(files: Files, offered: set<Payload>, p: Payload, texts: Texts, n: nat)
    requires Consistent(files, offered, texts) && p.Complete() && n <= 4
    ensures Consistent(Stage(files, p, texts, n), offered + {p}, texts)
    ensures n > 0 ==> LayerLib in Stage(files, p, texts, n)
  {
    StagesAreWhole(files, offered, p, texts, n);
    hide Whole;
    if n > 0 { StagesAreConsistent(files, offered, p, texts, n - 1); }
  }

  // ---- removing --------------------------------------------------------------------------------

  const REMOVE_ORDER := [Manifest, Wrapper, LayerLib, GlLib]

  /** The removals among the first `n` that worked. */
  function Gone(removed: seq<bool>, n: nat): set<Target>
    requires n <= |removed| <= 4
  {
    if n == 0 then {} else Gone(removed, n - 1) + if removed[n - 1] then {REMOVE_ORDER[n - 1]} else {}
  }

  lemma GoneIs(removed: seq<bool>, n: nat)
    requires n <= |removed| <= 4
    ensures forall t :: t in Gone(removed, n) <==> exists i :: 0 <= i < n && removed[i] && REMOVE_ORDER[i] == t
  {
    if n > 0 { GoneIs(removed, n - 1); }
  }

  /** The manifest would not go, and the library went. */
  predicate Strays(files: Files, removed: seq<bool>)
    requires |removed| == 4
  {
    Manifest in files && !removed[0] && removed[2]
  }

  lemma GoneWhen(removed: seq<bool>, n: nat)
    requires n <= |removed| == 4
    ensures Manifest in Gone(removed, n) <==> n > 0 && removed[0]
    ensures LayerLib in Gone(removed, n) <==> n > 2 && removed[2]
  {
    GoneIs(removed, n);
    assert REMOVE_ORDER[0] == Manifest && REMOVE_ORDER[1] == Wrapper && REMOVE_ORDER[2] == LayerLib && REMOVE_ORDER[3] == GlLib;
    hide Gone;
    assert n > 0 && removed[0] ==> Manifest in Gone(removed, n);
    assert n > 2 && removed[2] ==> LayerLib in Gone(removed, n);
  }

  /** Taking files away keeps the others whole. */
  lemma FewerFiles(files: Files, offered: set<Payload>, texts: Texts, gone: set<Target>)
    requires Consistent(files, offered, texts)
    ensures Consistent(files - gone, offered, texts) <==>
            !(Manifest in files && Manifest !in gone && (LayerLib !in files || LayerLib in gone))
  {
  }

  /** Removal keeps every state consistent unless the library goes although its manifest would not. */
  lemma RemovalIsConsistentExactlyWhen(files: Files, offered: set<Payload>, texts: Texts, removed: seq<bool>)
    requires Consistent(files, offered, texts) && |removed| == 4
    ensures (forall n :: 0 <= n <= 4 ==> Consistent(files - Gone(removed, n), offered, texts))
            <==> !Strays(files, removed)
  {
    assert Manifest in files ==> LayerLib in files;
    forall n | 0 <= n <= 4
      ensures Consistent(files - Gone(removed, n), offered, texts) <==> !(n > 2 && Strays(files, removed))
    {
      GoneWhen(removed, n);
      FewerFiles(files, offered, texts, Gone(removed, n));
    }
    hide Consistent, Gone, Strays;
    assert Consistent(files - Gone(removed, 3), offered, texts) <==> !Strays(files, removed);
  }

  /** The libraries have a directory of their own. */
  predicate InLibDir(t: Target) {
    t == LayerLib || t == GlLib
  }

  // ---- the disk --------------------------------------------------------------------------------

  /** The files, the temporary files beside them, and every state the installed names have been in. */
  class Disk {
    var files: Files
    var temps: Files
    var libDir: bool
    const foreign: bool                          // somebody else's file is in the library directory
    const removalsWork: bool                     // no removal fails but by a crash
    const writesWork: bool                       // nor does any other operation
    var up: bool
    ghost var seen: seq<Files>

    ghost predicate Valid()
      reads this
    {
      seen != [] && seen[|seen| - 1] == files && (!EmptyDir() ==> libDir)
    }

    predicate EmptyDir()
      reads this`files, this`temps
    {
      !foreign && forall t :: t in files || t in temps ==> !InLibDir(t)
    }

    constructor (installed: Files, foreign: bool, removalsWork: bool, writesWork: bool)
      ensures Valid() && files == installed && seen == [installed]
      ensures this.foreign == foreign && this.removalsWork == removalsWork && this.writesWork == writesWork
    {
      files, temps, up, seen := installed, map[], true, [installed];
      libDir, this.foreign, this.removalsWork, this.writesWork := true, foreign, removalsWork, writesWork;
    }

    /** Whether the next operation works: any may fail, and from a crash to the restart all do. */
    method Works() returns (ok: bool)
      modifies this`up
      ensures (ok ==> up) && (up ==> old(up)) && (writesWork && up ==> ok)
    {
      var dies: bool := *;
      var fails: bool := *;
      if dies { up := false; }
      ok := up && (writesWork || !fails);
    }

    method Restart()
      modifies this`up
      ensures up
    {
      up := true;
    }

    method CreateDirectory(t: Target) returns (ok: bool)
      requires Valid()
      modifies this`up, this`libDir
      ensures Valid() && (ok && InLibDir(t) ==> libDir)
      ensures (up ==> old(up)) && (writesWork && up ==> ok)
    {
      ok := Works();
      if ok && InLibDir(t) { libDir := true; }
    }

    /** Takes the directory only if nothing is in it; failing is harmless. */
    method RemoveDirectory()
      requires Valid()
      modifies this`up, this`libDir
      ensures Valid() && (libDir ==> old(libDir)) && (!EmptyDir() ==> libDir == old(libDir))
      ensures (up ==> old(up)) && (removalsWork && up ==> (libDir <==> old(libDir) && !EmptyDir()))
    {
      var ok := Works();
      if removalsWork { ok := up; }
      if ok && EmptyDir() { libDir := false; }
    }

    /** Opened for writing, and truncated. */
    method Open(t: Target) returns (ok: bool)
      requires Valid() && (InLibDir(t) ==> libDir)
      modifies this`up, this`temps
      ensures Valid() && temps == if ok then old(temps)[t := []] else old(temps)
      ensures (up ==> old(up)) && (writesWork && up ==> ok)
    {
      ok := Works();
      if ok { temps := temps[t := []]; }
    }

    /** Some of `more` is written, -1 for none of it. */
    method Write(t: Target, more: seq<Byte>) returns (n: int)
      requires Valid() && more != [] && t in temps
      modifies this`up, this`temps
      ensures Valid()
      ensures n == -1 || 0 < n <= |more|
      ensures (up ==> old(up)) && (writesWork && up ==> n != -1)
      ensures temps == if n == -1 then old(temps) else old(temps)[t := old(temps)[t] + more[..n]]
    {
      var ok := Works();
      if !ok { return -1; }
      n :| 0 < n <= |more|;
      temps := temps[t := temps[t] + more[..n]];
    }

    /** The temporary file takes the installed name, in one step. */
    method Rename(t: Target) returns (ok: bool)
      requires Valid() && t in temps
      modifies this`up, this`files, this`temps, this`seen
      ensures Valid() && files == if ok then old(files)[t := old(temps)[t]] else old(files)
      ensures seen == if ok then old(seen) + [files] else old(seen)
      ensures temps == if ok then old(temps) - {t} else old(temps)
      ensures (up ==> old(up)) && (writesWork && up ==> ok)
    {
      ok := Works();
      if ok {
        files, temps := files[t := temps[t]], temps - {t};
        seen := seen + [files];
      }
    }

    method RemoveTemp(t: Target)
      requires Valid()
      modifies this`up, this`temps
      ensures Valid() && temps - {t} == old(temps) - {t} && (up ==> old(up)) && (removalsWork && up ==> t !in temps)
    {
      var ok := Works();
      if removalsWork { ok := up; }
      if ok { temps := temps - {t}; }
    }

    /** A file that is not there is removed already. */
    method Remove(t: Target) returns (ok: bool)
      requires Valid()
      modifies this`up, this`files, this`seen
      ensures Valid() && files == if ok then old(files) - {t} else old(files)
      ensures seen == old(seen) + [files]
      ensures (ok ==> up) && (up ==> old(up)) && (removalsWork && up ==> ok)
    {
      ok := Works();
      if removalsWork { ok := up; }
      if ok { files := files - {t}; }
      seen := seen + [files];
    }

    /** All of `bytes` under the installed name, or nothing new there, which takes a failure or a crash.  The temporary file
        goes. */
    method WriteAtomic(t: Target, bytes: seq<Byte>) returns (ok: bool)
      requires Valid()
      modifies this
      ensures Valid() && files == if ok then old(files)[t := bytes] else old(files)
      ensures seen == if ok then old(seen) + [files] else old(seen)
      ensures (up ==> old(up)) && (writesWork && up ==> ok)
      ensures temps - {t} == old(temps) - {t} && (ok ==> t !in temps)
      ensures removalsWork && up && t in temps ==> t in old(temps)
    {
      ok := CreateDirectory(t);
      if !ok { return false; }
      ok := Open(t);
      if !ok { return false; }
      ok := WriteOut(t, bytes);
      if ok { ok := Rename(t); }
      if !ok { RemoveTemp(t); }
    }

    /** All of `bytes` into the temporary file, which is closed in any case. */
    method WriteOut(t: Target, bytes: seq<Byte>) returns (ok: bool)
      requires Valid() && t in temps && temps[t] == []
      modifies this`up, this`temps
      ensures Valid() && t in temps && (ok ==> temps[t] == bytes) && temps - {t} == old(temps) - {t}
      ensures (up ==> old(up)) && (writesWork && up ==> ok)
    {
      ok := WriteBytes(t, bytes);
      var closed := Works();
      if !closed { ok := false; }
    }

    /** As many bytes at a time as each write takes. */
    method WriteBytes(t: Target, bytes: seq<Byte>) returns (ok: bool)
      requires Valid() && t in temps && temps[t] == []
      modifies this`up, this`temps
      ensures Valid() && t in temps && (ok ==> temps[t] == bytes) && temps - {t} == old(temps) - {t}
      ensures (up ==> old(up)) && (writesWork && up ==> ok)
    {
      var p, left := 0, |bytes|;
      while left > 0
        invariant 0 <= left && 0 <= p && p + left == |bytes| && Valid() && t in temps && temps[t] == bytes[..p]
        invariant (up ==> old(up)) && temps - {t} == old(temps) - {t}
      {
        var n := Write(t, bytes[p..]);
        if n == -1 { return false; }
        assert bytes[..p + n] == bytes[..p] + bytes[p..][..n];
        p, left := p + n, left - n;
      }
      assert bytes[..p] == bytes;
      ok := true;
    }

    /** The first `n` files of an install that began on `start` after the states `before` are there. */
    ghost predicate Staged(start: Files, before: seq<Files>, p: Payload, texts: Texts, n: nat)
      reads this
    {
      && Valid() && n <= 4 && p.Complete() && files == Stage(start, p, texts, n)
      && |seen| == |before| + n && before <= seen
      && forall j :: 0 < j <= n ==> seen[|before| + j - 1] == Stage(start, p, texts, j)
    }

    /** The next file of an install. */
    method WriteNext(t: Target, bytes: seq<Byte>, p: Payload, texts: Texts, ghost start: Files, ghost before: seq<Files>,
                     ghost n: nat) returns (ok: bool)
      requires n < 4 && Staged(start, before, p, texts, n) && t == INSTALL_ORDER[n] && bytes == BytesFor(t, p, texts)
      modifies this
      ensures Staged(start, before, p, texts, if ok then n + 1 else n)
      ensures (up ==> old(up)) && (writesWork && up ==> ok)
    {
      assert Stage(start, p, texts, n + 1) == Stage(start, p, texts, n)[t := bytes];
      hide Payload.Complete, BytesFor;
      ok := WriteAtomic(t, bytes);
    }

    /** The first `n` files of the payload, in order; all four on success, none when the payload is incomplete.  It
        takes a failure or a crash to stop short of a complete payload. */
    method InstallBackends(p: Payload, texts: Texts) returns (ok: bool, ghost n: nat)
      requires Valid()
      modifies this
      ensures Valid() && n <= 4 && (ok <==> n == 4) && (!p.Complete() ==> n == 0)
      ensures (up ==> old(up)) && (writesWork && up && p.Complete() ==> ok)
      ensures p.Complete() ==> files == Stage(old(files), p, texts, n)
      ensures |seen| == |old(seen)| + n && old(seen) <= seen
      ensures p.Complete() ==> forall j :: 0 < j <= n ==> seen[|old(seen)| + j - 1] == Stage(old(files), p, texts, j)
    {
      ok, n := false, 0;
      ghost var start, before := files, seen;
      var readable := Works();
      if !readable || p.layer.None? { return; }
      readable := Works();
      if !readable || p.gl.None? { return; }
      ok, n := WriteAll(p, texts, start, before);
    }

    method WriteAll(p: Payload, texts: Texts, ghost start: Files, ghost before: seq<Files>) returns (ok: bool, ghost n: nat)
      requires Staged(start, before, p, texts, 0)
      modifies this
      ensures n <= 4 && Staged(start, before, p, texts, n) && (ok <==> n == 4)
      ensures (up ==> old(up)) && (writesWork && up ==> ok)
    {
      n := 0;
      assert p.Complete();
      hide Staged;
      ok := WriteNext(LayerLib, p.layer.value, p, texts, start, before, 0);
      if !ok { return; }
      n := 1;
      ok := WriteNext(GlLib, p.gl.value, p, texts, start, before, 1);
      if !ok { return; }
      n := 2;
      ok := WriteNext(Wrapper, texts.wrapper, p, texts, start, before, 2);
      if !ok { return; }
      n := 3;
      ok := WriteNext(Manifest, texts.manifest, p, texts, start, before, 3);
      if ok { n := 4; }
    }

    /** The removals recorded in `removed`, from `start` after the states `before`, are done. */
    ghost predicate Removing(start: Files, before: seq<Files>, removed: seq<bool>)
      reads this
    {
      && Valid() && |removed| <= 4 && files == start - Gone(removed, |removed|)
      && |seen| == |before| + |removed| && before <= seen
      && forall j :: 0 < j <= |removed| ==> seen[|before| + j - 1] == start - Gone(removed, j)
    }

    /** The next removal of an uninstall. */
    method RemoveNext(t: Target, ghost start: Files, ghost before: seq<Files>, ghost removed: seq<bool>) returns (gone: bool)
      requires |removed| < 4 && Removing(start, before, removed) && t == REMOVE_ORDER[|removed|]
      modifies this`up, this`files, this`seen
      ensures Removing(start, before, removed + [gone])
      ensures (gone ==> up) && (up ==> old(up)) && (removalsWork && up ==> gone)
    {
      gone := Remove(t);
      GoneNext(start, removed, gone);
    }

    /** The manifest first, and on past every failure; then the library directory if nothing is left in it. */
    method UninstallBackends() returns (ok: bool, ghost removed: seq<bool>)
      requires Valid()
      modifies this
      ensures Valid() && |removed| == 4 && (ok <==> false !in removed)
      ensures files == old(files) - Gone(removed, 4)
      ensures removalsWork ==> !Strays(old(files), removed)
      ensures removalsWork && up ==> ok && (libDir <==> old(libDir) && !EmptyDir())
      ensures (libDir ==> old(libDir)) && (!EmptyDir() ==> libDir)
      ensures |seen| == |old(seen)| + 4 && old(seen) <= seen
      ensures forall j :: 0 < j <= 4 ==> seen[|old(seen)| + j - 1] == old(files) - Gone(removed, j)
    {
      ok, removed := true, [];
      ghost var start, before := files, seen;
      for i := 0 to 4
        invariant |removed| == i && (ok <==> false !in removed) && libDir == old(libDir) && Removing(start, before, removed)
        invariant removalsWork && up ==> ok
        invariant removalsWork && i > 2 && removed[2] ==> removed[0]
      {
        hide Removing;
        var gone := RemoveNext(REMOVE_ORDER[i], start, before, removed);
        removed := removed + [gone];
        if !gone { ok := false; }
      }
      RemoveDirectory();
    }
  }

  lemma GoneNext(files: Files, removed: seq<bool>, last: bool)
    requires |removed| < 4
    ensures forall j :: 0 <= j <= |removed| ==> Gone(removed + [last], j) == Gone(removed, j)
    ensures files - Gone(removed + [last], |removed| + 1) ==
            if last then files - Gone(removed, |removed|) - {REMOVE_ORDER[|removed|]} else files - Gone(removed, |removed|)
  {
    forall j | 0 <= j <= |removed| ensures Gone(removed + [last], j) == Gone(removed, j) { GoneSnoc(removed, last, j); }
  }

  lemma {:induction false} GoneSnoc(removed: seq<bool>, last: bool, n: nat)
    requires n <= |removed| < 4
    ensures Gone(removed + [last], n) == Gone(removed, n)
  {
    if n > 0 { GoneSnoc(removed, last, n - 1); }
  }

  lemma StagesInOrder(files: Files, p: Payload, texts: Texts)
    requires p.Complete()
    ensures Stage(files, p, texts, 0) == files
    ensures Stage(files, p, texts, 1) == files[LayerLib := p.layer.value]
    ensures Stage(files, p, texts, 2) == Stage(files, p, texts, 1)[GlLib := p.gl.value]
    ensures Stage(files, p, texts, 3) == Stage(files, p, texts, 2)[Wrapper := texts.wrapper]
    ensures Stage(files, p, texts, 4) == Stage(files, p, texts, 3)[Manifest := texts.manifest]
  {
    assert Stage(files, p, texts, 3) == Stage(files, p, texts, 2)[INSTALL_ORDER[2] := texts.wrapper];
  }

  /** What a full install and a full removal leave. */
  lemma InstallThenRemove(files: Files, p: Payload, texts: Texts, removed: seq<bool>)
    requires p.Complete() && |removed| == 4 && false !in removed
    ensures Stage(files, p, texts, 4) == map t: Target | true :: BytesFor(t, p, texts)
    ensures Stage(files, p, texts, 4) - Gone(removed, 4) == map[]
  {
    StagesInOrder(files, p, texts);
    GoneIs(removed, 4);
    forall t: Target ensures t in Gone(removed, 4) {
      var i := match t case Manifest => 0 case Wrapper => 1 case LayerLib => 2 case GlLib => 3;
      assert removed[i] && REMOVE_ORDER[i] == t;
    }
  }

  // ---- whole runs ------------------------------------------------------------------------------

  ghost predicate AllWhole(seen: seq<Files>, offered: set<Payload>, texts: Texts) {
    forall k :: 0 <= k < |seen| ==> Whole(seen[k], offered, texts)
  }

  ghost predicate AllConsistent(seen: seq<Files>, offered: set<Payload>, texts: Texts) {
    forall k :: 0 <= k < |seen| ==> Consistent(seen[k], offered, texts)
  }

  /** The states from `k` on begin with a removal, recorded in `removed`, that keeps the manifest and loses the library. */
  predicate StraysAt(seen: seq<Files>, k: nat, removed: seq<bool>) {
    && 0 < k && k + 4 <= |seen| && |removed| == 4 && Strays(seen[k - 1], removed)
    && forall j :: 0 < j <= 4 ==> seen[k + j - 1] == seen[k - 1] - Gone(removed, j)
  }

  /** The first removal of a run that left the manifest without its library, if there was one. */
  datatype Stray = Never | At(k: nat, removed: seq<bool>)

  /** Every state is consistent, or all those before the first removal that strays. */
  ghost predicate ConsistentUpTo(seen: seq<Files>, offered: set<Payload>, texts: Texts, stray: Stray) {
    match stray
    case Never => AllConsistent(seen, offered, texts)
    case At(k, removed) => StraysAt(seen, k, removed) && AllConsistent(seen[..k], offered, texts)
  }

  /** A removal that strays leaves a bare manifest, so no run with one is consistent throughout. */
  lemma StrayShows(seen: seq<Files>, offered: set<Payload>, texts: Texts, stray: Stray)
    requires ConsistentUpTo(seen, offered, texts, stray) && stray.At?
    ensures Manifest in seen[stray.k + 2] && LayerLib !in seen[stray.k + 2] && !AllConsistent(seen, offered, texts)
  {
    GoneWhen(stray.removed, 3);
    assert seen[stray.k + 3 - 1] == seen[stray.k - 1] - Gone(stray.removed, 3);
  }

  lemma {:induction false} MoreOffered(seen: seq<Files>, offered: set<Payload>, p: Payload, texts: Texts)
    ensures AllWhole(seen, offered, texts) ==> AllWhole(seen, offered + {p}, texts)
    ensures AllConsistent(seen, offered, texts) ==> AllConsistent(seen, offered + {p}, texts)
  {
    forall k | 0 <= k < |seen| && Whole(seen[k], offered, texts) ensures Whole(seen[k], offered + {p}, texts) {
      MoreWhole(seen[k], offered, p, texts);
    }
    hide Whole;
  }

  /** Any installs, removals, crashes and restarts, from a consistent disk.  No state on the way has a torn or mixed-up
      file.  Every state has the library its manifest names if removals work; if they may fail, every state up to the
      first removal that keeps the manifest and loses the library. */
  method AnyRun(disk: Disk, texts: Texts, ghost known: set<Payload>)
    returns (ghost offered: set<Payload>, ghost stray: Stray)
    requires disk.Valid() && AllConsistent(disk.seen, known, texts)
    modifies disk
    ensures disk.Valid() && known <= offered && old(disk.seen) <= disk.seen
    ensures AllWhole(disk.seen, offered, texts)
    ensures ConsistentUpTo(disk.seen, offered, texts, stray)
    ensures AllConsistent(disk.seen, offered, texts) <==> stray.Never?
    ensures disk.removalsWork ==> stray.Never?
  {
    offered, stray := known, Never;
    hide AllConsistent, AllWhole, ConsistentUpTo;
    NeverStrayed(disk.seen, offered, texts);
    var steps: nat :| true;
    while steps > 0
      invariant disk.Valid() && known <= offered && old(disk.seen) <= disk.seen
      invariant AllWhole(disk.seen, offered, texts) && ConsistentUpTo(disk.seen, offered, texts, stray)
      invariant disk.removalsWork ==> stray.Never?
    {
      var install: bool := *;
      if install {
        offered := AnyInstall(disk, texts, offered, stray);
      } else {
        stray := AnyRemoval(disk, texts, offered, stray);
      }
      var restarts: bool := *;
      if restarts { disk.Restart(); }
      steps := steps - 1;
    }
    NeverStrayed(disk.seen, offered, texts);
    if stray.At? { StrayShows(disk.seen, offered, texts, stray); }
  }

  lemma NeverStrayed(seen: seq<Files>, offered: set<Payload>, texts: Texts)
    ensures ConsistentUpTo(seen, offered, texts, Never) <==> AllConsistent(seen, offered, texts)
    ensures AllConsistent(seen, offered, texts) ==> AllWhole(seen, offered, texts)
  {
    hide Whole;
  }

  method AnyInstall(disk: Disk, texts: Texts, ghost known: set<Payload>, ghost stray: Stray)
    returns (ghost offered: set<Payload>)
    requires disk.Valid() && AllWhole(disk.seen, known, texts) && ConsistentUpTo(disk.seen, known, texts, stray)
    modifies disk
    ensures disk.Valid() && known <= offered && old(disk.seen) <= disk.seen
    ensures AllWhole(disk.seen, offered, texts) && ConsistentUpTo(disk.seen, offered, texts, stray)
  {
    hide AllConsistent, AllWhole, ConsistentUpTo, Stage, Payload.Complete;
    ghost var before, files := disk.seen, disk.files;
    var p: Payload := *;
    var ok;
    ghost var n;
    ok, n := disk.InstallBackends(p, texts);
    offered := known + {p};
    InstallWhole(before, files, known, p, texts, n, disk.seen);
    InstallKeeps(before, files, known, p, texts, n, disk.seen, stray);
  }

  method AnyRemoval(disk: Disk, texts: Texts, ghost offered: set<Payload>, ghost before: Stray) returns (ghost stray: Stray)
    requires disk.Valid() && AllWhole(disk.seen, offered, texts) && ConsistentUpTo(disk.seen, offered, texts, before)
    modifies disk
    ensures disk.Valid() && old(disk.seen) <= disk.seen
    ensures AllWhole(disk.seen, offered, texts) && ConsistentUpTo(disk.seen, offered, texts, stray)
    ensures disk.removalsWork && before.Never? ==> stray.Never?
    ensures before.At? ==> stray == before
  {
    hide AllConsistent, AllWhole, ConsistentUpTo, Gone;
    ghost var seen, files := disk.seen, disk.files;
    var ok;
    ghost var removed;
    ok, removed := disk.UninstallBackends();
    RemovalWhole(seen, files, offered, texts, removed, disk.seen);
    stray := if before.Never? && Strays(files, removed) then At(|seen|, removed) else before;
    RemovalKeeps(seen, files, offered, texts, removed, disk.seen, before);
  }

  lemma InstallWhole(before: seq<Files>, files: Files, offered: set<Payload>, p: Payload, texts: Texts, n: nat, seen: seq<Files>)
    requires before != [] && before[|before| - 1] == files && AllWhole(before, offered, texts)
    requires n <= 4 && |seen| == |before| + n && before <= seen && (!p.Complete() ==> n == 0)
    requires p.Complete() ==> forall j :: 0 < j <= n ==> seen[|before| + j - 1] == Stage(files, p, texts, j)
    ensures AllWhole(seen, offered + {p}, texts)
  {
    MoreOffered(before, offered, p, texts);
    hide Whole;
    forall k | 0 <= k < |seen| ensures Whole(seen[k], offered + {p}, texts) {
      if k < |before| {
        assert seen[k] == before[k];
      } else {
        StagesAreWhole(files, offered, p, texts, k - |before| + 1);
        assert seen[|before| + (k - |before| + 1) - 1] == seen[k];
      }
    }
  }

  lemma InstallKeeps(before: seq<Files>, files: Files, offered: set<Payload>, p: Payload, texts: Texts, n: nat,
                     seen: seq<Files>, stray: Stray)
    requires before != [] && before[|before| - 1] == files && ConsistentUpTo(before, offered, texts, stray)
    requires n <= 4 && |seen| == |before| + n && before <= seen && (!p.Complete() ==> n == 0)
    requires p.Complete() ==> forall j :: 0 < j <= n ==> seen[|before| + j - 1] == Stage(files, p, texts, j)
    ensures ConsistentUpTo(seen, offered + {p}, texts, stray)
  {
    if stray.At? {
      MoreOffered(before[..stray.k], offered, p, texts);
      StillStrays(before, seen, stray.k, stray.removed);
      return;
    }
    MoreOffered(before, offered, p, texts);
    hide Consistent;
    forall k | 0 <= k < |seen| ensures Consistent(seen[k], offered + {p}, texts) {
      if k < |before| {
        assert seen[k] == before[k];
      } else {
        StagesAreConsistent(files, offered, p, texts, k - |before| + 1);
        assert seen[|before| + (k - |before| + 1) - 1] == seen[k];
      }
    }
  }

  lemma StillStrays(before: seq<Files>, seen: seq<Files>, k: nat, removed: seq<bool>)
    requires before <= seen && StraysAt(before, k, removed)
    ensures StraysAt(seen, k, removed) && seen[..k] == before[..k]
  {
    hide Gone, Strays;
    assert forall i :: 0 <= i < |before| ==> seen[i] == before[i];
    forall j | 0 < j <= 4 ensures seen[k + j - 1] == seen[k - 1] - Gone(removed, j) {
      assert before[k + j - 1] == before[k - 1] - Gone(removed, j);
    }
  }

  lemma RemovalWhole(before: seq<Files>, files: Files, offered: set<Payload>, texts: Texts, removed: seq<bool>, seen: seq<Files>)
    requires before != [] && before[|before| - 1] == files && AllWhole(before, offered, texts)
    requires |removed| == 4 && |seen| == |before| + 4 && before <= seen
    requires forall j :: 0 < j <= 4 ==> seen[|before| + j - 1] == files - Gone(removed, j)
    ensures AllWhole(seen, offered, texts)
  {
    assert Whole(files, offered, texts);
    forall k | 0 <= k < |seen| ensures Whole(seen[k], offered, texts) {
      if k < |before| {
        assert seen[k] == before[k];
      } else {
        assert seen[|before| + (k - |before| + 1) - 1] == files - Gone(removed, k - |before| + 1);
      }
    }
  }

  lemma RemovalKeeps(before: seq<Files>, files: Files, offered: set<Payload>, texts: Texts, removed: seq<bool>,
                     seen: seq<Files>, stray: Stray)
    requires before != [] && before[|before| - 1] == files && ConsistentUpTo(before, offered, texts, stray)
    requires |removed| == 4 && |seen| == |before| + 4 && before <= seen
    requires forall j :: 0 < j <= 4 ==> seen[|before| + j - 1] == files - Gone(removed, j)
    ensures ConsistentUpTo(seen, offered, texts,
                           if stray.Never? && Strays(files, removed) then At(|before|, removed) else stray)
  {
    if stray.At? {
      StillStrays(before, seen, stray.k, stray.removed);
      return;
    }
    hide Whole;
    if Strays(files, removed) {
      assert seen[..|before|] == before;
      return;
    }
    RemovalIsConsistentExactlyWhen(files, offered, texts, removed);
    hide Consistent, Strays, Gone;
    forall k | 0 <= k < |seen| ensures Consistent(seen[k], offered, texts) {
      if k < |before| {
        assert seen[k] == before[k];
      } else {
        assert seen[|before| + (k - |before| + 1) - 1] == files - Gone(removed, k - |before| + 1);
      }
    }
  }
}
