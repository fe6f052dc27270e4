/** What the build's revision is a hash of (admin/vite-sw-plugin.ts): the precached files by path, each behind
    its path and length. SHA-256 itself is not part of this model. */
module Revision {
  import opened IsoDates

  type Byte = b: int | 0 <= b < 256

  /** The UTF-8 encoder, with the two facts the framing needs of it. */
  type Encoder = string -> seq<Byte>

  datatype PrecacheFile = PrecacheFile(path: string, bytes: seq<Byte>)

  const NUL: Byte := 0

  ghost predicate NulFree(path: string) {
    forall i :: 0 <= i < |path| ==> path[i] != '\0'
  }

  ghost predicate Encodes(utf8: Encoder) {
    && (forall p, q :: utf8(p) == utf8(q) ==> p == q)
    && (forall p :: NulFree(p) ==> NUL !in utf8(p))
  }

  // ----- sorting by path

  function Insert(f: PrecacheFile, files: seq<PrecacheFile>): seq<PrecacheFile> {
    if files == [] then [f]
    else if TextBefore(f.path, files[0].path) then [f] + files
    else [files[0]] + Insert(f, files[1..])
  }

  function SortByPath(files: seq<PrecacheFile>): seq<PrecacheFile> {
    if files == [] then [] else Insert(files[|files| - 1], SortByPath(files[..|files| - 1]))
  }

  // ----- the bytes

  function Decimal(n: nat): (s: seq<Byte>)
    ensures |s| > 0 && NUL !in s
  {
    if n < 10 then [48 + n] else Decimal(n / 10) + [48 + n % 10]
  }

  function Frame(f: PrecacheFile, utf8: Encoder): seq<Byte> {
    utf8(f.path) + [NUL] + (Decimal(|f.bytes|) + [NUL] + f.bytes)
  }

  function Frames(files: seq<PrecacheFile>, utf8: Encoder): seq<Byte> {
    if files == [] then [] else Frame(files[0], utf8) + Frames(files[1..], utf8)
  }

  function Preimage(files: seq<PrecacheFile>, utf8: Encoder): seq<Byte> {
    Frames(SortByPath(files), utf8)
  }

  lemma {:induction false} FramesConcat(a: seq<PrecacheFile>, b: seq<PrecacheFile>, utf8: Encoder)
    ensures Frames(a + b, utf8) == Frames(a, utf8) + Frames(b, utf8)
  {
    hide Frame;
    if a == [] {
      assert a + b == b;
    } else {
      assert (a + b)[0] == a[0] && (a + b)[1..] == a[1..] + b;
      FramesConcat(a[1..], b, utf8);
    }
  }

  /** The hash is fed the preimage, two updates a file. */
  method FeedHash(files: seq<PrecacheFile>, utf8: Encoder) returns (fed: seq<Byte>)
    ensures fed == Preimage(files, utf8)
  {
    hide Frame, Decimal;
    var sorted := SortByPath(files);
    fed := [];
    for i := 0 to |sorted|
      invariant fed == Frames(sorted[..i], utf8)
    {
      FramesConcat(sorted[..i], [sorted[i]], utf8);
      FrameIs(sorted[i], utf8);
      assert sorted[..i + 1] == sorted[..i] + [sorted[i]];
      var header := utf8(sorted[i].path) + [NUL] + Decimal(|sorted[i].bytes|) + [NUL];
      Fed(fed, header, sorted[i].bytes);
      fed := fed + header;
      fed := fed + sorted[i].bytes;
    }
    assert sorted[..|sorted|] == sorted;
  }

  lemma FrameIs(f: PrecacheFile, utf8: Encoder)
    ensures Frames([f], utf8) == utf8(f.path) + [NUL] + Decimal(|f.bytes|) + [NUL] + f.bytes
  {
    assert [f][1..] == [];
    var a, b, c := utf8(f.path) + [NUL], Decimal(|f.bytes|) + [NUL], f.bytes;
    assert a + (b + c) == a + b + c;
    assert a + b == a + Decimal(|f.bytes|) + [NUL];
  }

  lemma Fed(fed: seq<Byte>, header: seq<Byte>, bytes: seq<Byte>)
    ensures fed + header + bytes == fed + (header + bytes)
  {}

  // ----- reading the frames back

  lemma NulIsAt(a: seq<Byte>, x: seq<Byte>)
    requires NUL !in a
    ensures (a + [NUL] + x)[|a|] == NUL
    ensures forall k :: 0 <= k < |a| ==> (a + [NUL] + x)[k] != NUL
  {
    forall k | 0 <= k < |a| ensures (a + [NUL] + x)[k] != NUL {
      assert (a + [NUL] + x)[k] == a[k];
    }
  }

  /** What stands before the first NUL, and what behind it, is determined. */
  lemma FirstNul(a: seq<Byte>, b: seq<Byte>, x: seq<Byte>, y: seq<Byte>)
    requires NUL !in a && NUL !in b && a + [NUL] + x == b + [NUL] + y
    ensures a == b && x == y
  {
    var s := a + [NUL] + x;
    NulIsAt(a, x);
    NulIsAt(b, y);
    assert a == s[..|a|] && b == s[..|b|];
    assert x == s[|a| + 1..] && y == s[|b| + 1..];
  }

  function Value(s: seq<Byte>): int {
    if s == [] then 0 else 10 * Value(s[..|s| - 1]) + (s[|s| - 1] as int - 48)
  }

  lemma {:induction false} DecimalReadsBack(n: nat)
    ensures Value(Decimal(n)) == n
  {
    if n >= 10 {
      DecimalReadsBack(n / 10);
      var s := Decimal(n);
      assert s[..|s| - 1] == Decimal(n / 10);
    } else {
      assert Decimal(n)[..0] == [];
    }
  }

  lemma SamePrefix(a: seq<Byte>, b: seq<Byte>, x: seq<Byte>, y: seq<Byte>)
    requires |a| == |b| && a + x == b + y
    ensures a == b && x == y
  {
    assert a == (a + x)[..|a|] && b == (b + y)[..|b|];
    assert x == (a + x)[|a|..] && y == (b + y)[|b|..];
  }

  lemma FirstFrame(f: PrecacheFile, g: PrecacheFile, x: seq<Byte>, y: seq<Byte>, utf8: Encoder)
    requires Encodes(utf8) && NulFree(f.path) && NulFree(g.path) && Frame(f, utf8) + x == Frame(g, utf8) + y
    ensures f == g && x == y
  {
    hide NulFree;
    var a, b := utf8(f.path), utf8(g.path);
    var m, n := Decimal(|f.bytes|), Decimal(|g.bytes|);
    hide Decimal;
    Reassociate(a, m, f.bytes, x);
    Reassociate(b, n, g.bytes, y);
    FirstNul(a, b, m + [NUL] + (f.bytes + x), n + [NUL] + (g.bytes + y));
    FirstNul(m, n, f.bytes + x, g.bytes + y);
    DecimalReadsBack(|f.bytes|);
    DecimalReadsBack(|g.bytes|);
    SamePrefix(f.bytes, g.bytes, x, y);
  }

  lemma Reassociate(a: seq<Byte>, m: seq<Byte>, bytes: seq<Byte>, x: seq<Byte>)
    ensures a + [NUL] + (m + [NUL] + bytes) + x == a + [NUL] + (m + [NUL] + (bytes + x))
  {}

  ghost predicate Paths(files: seq<PrecacheFile>) {
    forall i :: 0 <= i < |files| ==> NulFree(files[i].path)
  }

  lemma {:induction false} FramesAreInjective(fs: seq<PrecacheFile>, gs: seq<PrecacheFile>, utf8: Encoder)
    requires Encodes(utf8) && Paths(fs) && Paths(gs) && Frames(fs, utf8) == Frames(gs, utf8)
    ensures fs == gs
  {
    hide Frame, NulFree, Encodes;
    FrameIsNotEmpty(fs, utf8);
    FrameIsNotEmpty(gs, utf8);
    if fs != [] {
      FirstFrame(fs[0], gs[0], Frames(fs[1..], utf8), Frames(gs[1..], utf8), utf8);
      FramesAreInjective(fs[1..], gs[1..], utf8);
      assert fs == [fs[0]] + fs[1..] && gs == [gs[0]] + gs[1..];
    }
  }

  lemma FrameIsNotEmpty(files: seq<PrecacheFile>, utf8: Encoder)
    ensures files == [] <==> Frames(files, utf8) == []
  {}

  // ----- file sets

  ghost predicate DistinctPaths(files: seq<PrecacheFile>) {
    forall i, j :: 0 <= i < j < |files| ==> files[i].path != files[j].path
  }

  ghost predicate ByPath(files: seq<PrecacheFile>) {
    forall i, j :: 0 <= i < j < |files| ==> TextBefore(files[i].path, files[j].path)
  }

  lemma {:induction false} TextOrder(s: string, t: string, u: string)
    ensures !(TextBefore(s, t) && TextBefore(t, s))
    ensures s != t ==> TextBefore(s, t) || TextBefore(t, s)
    ensures TextBefore(s, t) && TextBefore(t, u) ==> TextBefore(s, u)
    decreases |s|
  {
    if s != "" && t != "" {
      TextOrder(s[1..], t[1..], if u != "" then u[1..] else "");
      assert s == [s[0]] + s[1..] && t == [t[0]] + t[1..];
    }
  }

  lemma {:induction false} InsertAdds(f: PrecacheFile, files: seq<PrecacheFile>)
    ensures multiset(Insert(f, files)) == multiset(files) + multiset{f}
  {
    hide TextBefore;
    if files != [] {
      assert files == [files[0]] + files[1..];
      InsertAdds(f, files[1..]);
    }
  }

  lemma {:induction false} SortKeeps(files: seq<PrecacheFile>)
    ensures multiset(SortByPath(files)) == multiset(files)
  {
    hide Insert, TextBefore;
    if files != [] {
      var front, last := files[..|files| - 1], files[|files| - 1];
      SortKeeps(front);
      InsertAdds(last, SortByPath(front));
      assert files == front + [last];
    }
  }

  lemma {:induction false} InsertByPath(f: PrecacheFile, files: seq<PrecacheFile>)
    requires ByPath(files) && forall i :: 0 <= i < |files| ==> files[i].path != f.path
    ensures ByPath(Insert(f, files))
  {
    hide TextBefore;
    if files != [] {
      TextOrder(f.path, files[0].path, files[0].path);
      if TextBefore(f.path, files[0].path) {
        forall i | 0 <= i < |files| ensures TextBefore(f.path, files[i].path) {
          TextOrder(f.path, files[0].path, files[i].path);
        }
      } else {
        InsertByPath(f, files[1..]);
        InsertAdds(f, files[1..]);
        var r := Insert(f, files[1..]);
        forall i | 0 <= i < |r| ensures TextBefore(files[0].path, r[i].path) {
          assert r[i] in multiset(r);
          assert r[i] == f || r[i] in files[1..];
        }
      }
    }
  }

  lemma {:induction false} SortIsByPath(files: seq<PrecacheFile>)
    requires DistinctPaths(files)
    ensures ByPath(SortByPath(files))
  {
    hide Insert, TextBefore;
    if files != [] {
      var front, last := files[..|files| - 1], files[|files| - 1];
      SortIsByPath(front);
      SortKeeps(front);
      var sorted := SortByPath(front);
      forall i | 0 <= i < |sorted| ensures sorted[i].path != last.path {
        assert sorted[i] in multiset(front);
        assert sorted[i] in front;
      }
      InsertByPath(last, sorted);
    }
  }

  lemma {:induction false} ByPathIsUnique(xs: seq<PrecacheFile>, ys: seq<PrecacheFile>)
    requires ByPath(xs) && ByPath(ys) && multiset(xs) == multiset(ys)
    ensures xs == ys
  {
    hide TextBefore, ByPath;
    assert |xs| == |multiset(xs)| && |ys| == |multiset(ys)|;
    if xs != [] {
      FirstIsFirst(xs, ys);
      TailOf(xs);
      TailOf(ys);
      ByPathIsUnique(xs[1..], ys[1..]);
      assert xs == [xs[0]] + xs[1..] && ys == [ys[0]] + ys[1..];
    }
  }

  lemma FirstIsFirst(xs: seq<PrecacheFile>, ys: seq<PrecacheFile>)
    requires ByPath(xs) && ByPath(ys) && multiset(xs) == multiset(ys) && xs != [] && ys != []
    ensures xs[0] == ys[0]
  {
    hide TextBefore;
    assert xs[0] in multiset(ys) && ys[0] in multiset(xs);
    assert xs[0] in ys && ys[0] in xs;
    var j :| 0 <= j < |ys| && ys[j] == xs[0];
    var i :| 0 <= i < |xs| && xs[i] == ys[0];
    TextOrder(xs[0].path, ys[0].path, ys[0].path);
  }

  lemma TailOf(xs: seq<PrecacheFile>)
    requires ByPath(xs) && xs != []
    ensures ByPath(xs[1..]) && multiset(xs[1..]) == multiset(xs) - multiset{xs[0]}
  {
    hide TextBefore;
    assert xs == [xs[0]] + xs[1..];
  }

  /** Two lists of files with distinct, NUL-free paths feed the hash the same bytes exactly when they hold the
      same files, in whatever order. */
  lemma PreimageIff(fs: seq<PrecacheFile>, gs: seq<PrecacheFile>, utf8: Encoder)
    requires Encodes(utf8) && Paths(fs) && Paths(gs) && DistinctPaths(fs) && DistinctPaths(gs)
    ensures Preimage(fs, utf8) == Preimage(gs, utf8) <==> multiset(fs) == multiset(gs)
  {
    hide SortByPath, Frames, NulFree, Encodes, ByPath, DistinctPaths;
    SortKeeps(fs);
    SortKeeps(gs);
    SortIsByPath(fs);
    SortIsByPath(gs);
    SortKeepsPaths(fs);
    SortKeepsPaths(gs);
    if Preimage(fs, utf8) == Preimage(gs, utf8) {
      FramesAreInjective(SortByPath(fs), SortByPath(gs), utf8);
    }
    if multiset(fs) == multiset(gs) {
      ByPathIsUnique(SortByPath(fs), SortByPath(gs));
    }
  }

  lemma SortKeepsPaths(files: seq<PrecacheFile>)
    requires Paths(files)
    ensures Paths(SortByPath(files))
  {
    hide NulFree, SortByPath;
    SortKeeps(files);
    var sorted := SortByPath(files);
    forall i | 0 <= i < |sorted| ensures NulFree(sorted[i].path) {
      assert sorted[i] in multiset(files);
      assert sorted[i] in files;
    }
  }

  /** A NUL in a path breaks it: under an encoder that spells ASCII as itself, one file can feed the bytes
      of two. */
  lemma NulConfuses(utf8: Encoder)
    requires utf8("a") == [97] && utf8("b") == [98] && utf8("a\00\0b") == [97, 0, 48, 0, 98]
    ensures Preimage([PrecacheFile("a\00\0b", [])], utf8) ==
            Preimage([PrecacheFile("a", []), PrecacheFile("b", [])], utf8)
  {
    var f, g, h := PrecacheFile("a\00\0b", []), PrecacheFile("a", []), PrecacheFile("b", []);
    assert [f][..0] == [] && [g, h][..1] == [g] && [g][..0] == [];
    assert SortByPath([f]) == [f];
    assert SortByPath([g]) == [g];
    assert [g][1..] == [];
    assert Insert(h, [g]) == [g] + Insert(h, []);
    assert SortByPath([g, h]) == [g, h];
    FrameIs(f, utf8);
    FrameIs(g, utf8);
    FrameIs(h, utf8);
    assert Decimal(0) == [48];
    FramesConcat([g], [h], utf8);
    assert [g] + [h] == [g, h];
  }
}
