// The last component of a path, as `std::path::Path::file_name` gives it.
module FileNames {
  import opened Prelude

  // Start of the last '/'-separated piece of `s[..n]`.
  function PieceStart(s: string, n: nat): (k: nat)
    requires n <= |s|
    ensures k <= n && (k > 0 ==> s[k - 1] == '/')
    ensures forall i :: k <= i < n ==> s[i] != '/'
  {
    if n == 0 || s[n - 1] == '/' then n else PieceStart(s, n - 1)
  }

  // The last piece, looking past trailing slashes and "/."; none for an empty path, a root, "." or a path
  // that ends in "..".
  function FileName(path: string): (r: Option<string>)
    ensures r.Some? ==> r.value != ""
  {
    if path == "" then None
    else if path[|path| - 1] == '/' then FileName(path[..|path| - 1])
    else
      var k := PieceStart(path, |path|);
      if path[k..] == "." then (if k > 0 then FileName(path[..k]) else None)
      else if path[k..] == ".." then None
      else Some(path[k..])
  }

  // ----- what a file name is, on the text -----

  predicate NoSlash(s: string) { forall i :: 0 <= i < |s| ==> s[i] != '/' }

  // Slashes, and dots that stand alone between or after them.
  predicate Trail(t: string) {
    || t == ""
    || (t[|t| - 1] == '/' && Trail(t[..|t| - 1]))
    || (|t| > 1 && t[|t| - 2..] == "/." && Trail(t[..|t| - 1]))
  }

  // `path` is `pre`, then the name `f`, then nothing that counts.
  predicate NamedBy(path: string, pre: string, f: string, tail: string) {
    && path == pre + f + tail && (pre == "" || pre[|pre| - 1] == '/')
    && f != "" && f != "." && f != ".." && NoSlash(f) && Trail(tail)
  }

  ghost predicate HasFileName(path: string, f: string) { exists pre, tail :: NamedBy(path, pre, f, tail) }

  // The end of a path seen from its parts.
  lemma EndOf(pre: string, f: string, tail: string)
    requires f != ""
    ensures var p := pre + f + tail;
            && p[|p| - 1] == (if tail == "" then f[|f| - 1] else tail[|tail| - 1])
            && (|tail| > 1 ==> p[|p| - 2] == tail[|tail| - 2])
            && (tail == "" && |f| > 1 ==> p[|p| - 2] == f[|f| - 2])
            && (tail != "" ==> p[..|p| - 1] == pre + f + tail[..|tail| - 1])
  {}

  lemma CharOf(a: string, b: string, i: nat)
    requires i < |a| + |b|
    ensures (a + b)[i] == if i < |a| then a[i] else b[i - |a|]
  {}

  lemma OneDot(f: string)
    ensures |f| == 1 && f[0] == '.' ==> f == "."
  {}

  lemma SlashAside(p: string, f: string)
    requires p != "" && p[|p| - 1] == '/'
    ensures HasFileName(p, f) <==> HasFileName(p[..|p| - 1], f)
  {
    var q := p[..|p| - 1];
    forall pre, tail | NamedBy(p, pre, f, tail) ensures HasFileName(q, f) {
      EndOf(pre, f, tail);
      assert tail != "" && NamedBy(q, pre, f, tail[..|tail| - 1]);
    }
    forall pre, tail | NamedBy(q, pre, f, tail) ensures HasFileName(p, f) {
      assert (tail + "/")[..|tail|] == tail && p == pre + f + (tail + "/");
      assert NamedBy(p, pre, f, tail + "/");
    }
  }

  lemma DotDropped(p: string, pre: string, f: string, tail: string)
    requires NamedBy(p, pre, f, tail) && |p| > 1 && p[|p| - 2] == '/' && p[|p| - 1] == '.'
    ensures tail != "" && NamedBy(p[..|p| - 1], pre, f, tail[..|tail| - 1])
  {
    OneDot(f);
    EndOf(pre, f, tail);
  }

  lemma DotAdded(q: string, pre: string, f: string, tail: string)
    requires NamedBy(q, pre, f, tail) && q != "" && q[|q| - 1] == '/'
    ensures NamedBy(q + ".", pre, f, tail + ".")
  {
    EndOf(pre, f, tail);
    hide NoSlash;
    var longer := tail + ".";
    assert longer[..|tail|] == tail && longer[|longer| - 2..] == "/." && q + "." == pre + f + longer;
  }

  lemma DotAside(p: string, f: string)
    requires |p| > 1 && p[|p| - 2] == '/' && p[|p| - 1] == '.'
    ensures HasFileName(p, f) <==> HasFileName(p[..|p| - 1], f)
  {
    hide NamedBy;
    var q := p[..|p| - 1];
    assert p == q + ".";
    forall pre, tail | NamedBy(p, pre, f, tail) ensures HasFileName(q, f) { DotDropped(p, pre, f, tail); }
    forall pre, tail | NamedBy(q, pre, f, tail) ensures HasFileName(p, f) { DotAdded(q, pre, f, tail); }
  }

  lemma LoneDotHasNone(f: string)
    ensures !HasFileName(".", f)
  {
    forall pre, tail ensures !NamedBy(".", pre, f, tail) {
      if f != "" && pre + f + tail == "." {
        CharOf(pre, f, |pre|);
        CharOf(pre + f, tail, |pre|);
        OneDot(f);
      }
    }
  }

  lemma DotPiece(p: string)
    requires |p| > 1
    ensures p[|p| - 2] == '/' && p[|p| - 1] == '.' ==> p[PieceStart(p, |p|)..] == "."
  {}

  // After a last piece that is not ".", nothing trails.
  lemma NothingTrails(p: string, pre: string, f: string, tail: string, k: nat)
    requires NamedBy(p, pre, f, tail) && p[|p| - 1] != '/' && k == PieceStart(p, |p|) && p[k..] != "."
    ensures tail == ""
  {
    hide NoSlash;
    EndOf(pre, f, tail);
    if |p| > 1 { DotPiece(p); }
  }

  lemma PieceIsName(p: string, f: string, k: nat)
    requires p != "" && p[|p| - 1] != '/' && k == PieceStart(p, |p|) && p[k..] != "."
    ensures HasFileName(p, f) <==> f == p[k..] && f != ".."
  {
    forall pre, tail | NamedBy(p, pre, f, tail) ensures f == p[k..] && f != ".." {
      NothingTrails(p, pre, f, tail, k);
      assert p == pre + f;
      SamePiece(p, pre, f, k);
    }
    if f == p[k..] && f != ".." {
      PieceNames(p, k);
    }
  }

  lemma PieceNames(p: string, k: nat)
    requires p != "" && p[|p| - 1] != '/' && k == PieceStart(p, |p|) && p[k..] != "." && p[k..] != ".."
    ensures NamedBy(p, p[..k], p[k..], "")
  {
    assert k < |p|;
    hide PieceStart;
    var f := p[k..];
    forall i | 0 <= i < |f| ensures f[i] != '/' { assert f[i] == p[k + i]; }
    assert p[..k] + f == p && p + "" == p;
  }

  lemma SamePiece(p: string, pre: string, f: string, k: nat)
    requires p == pre + f && NoSlash(f) && (pre == "" || pre[|pre| - 1] == '/') && k == PieceStart(p, |p|)
    ensures f == p[k..]
  {
    if k > 0 { CharOf(pre, f, k - 1); }
    if pre != "" { CharOf(pre, f, |pre| - 1); }
    assert k == |pre|;
  }

  lemma {:induction false} FileNameIff(path: string, f: string)
    ensures FileName(path) == Some(f) <==> HasFileName(path, f)
    decreases |path|
  {
    hide HasFileName;
    if path == "" {
      EmptyHasNone(f);
    } else if path[|path| - 1] == '/' {
      SlashAside(path, f);
      FileNameIff(path[..|path| - 1], f);
    } else {
      var k := PieceStart(path, |path|);
      if path[k..] != "." {
        PieceIsName(path, f, k);
      } else if k == 0 {
        assert path == ".";
        LoneDotHasNone(f);
      } else {
        assert path[|path| - 1] == path[k..][0] == '.' && k == |path| - 1;
        DotAside(path, f);
        FileNameIff(path[..k], f);
      }
    }
  }

  lemma EmptyHasNone(f: string)
    ensures !HasFileName("", f)
  {}
}
