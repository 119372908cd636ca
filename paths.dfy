/** Go's `path` package as the binder uses it: `Clean`, `Dir` and `Join` on slash-separated
    paths, purely lexically. */
module Paths {

  /** The slash-separated elements of `s`, empty ones included: "a//b/" gives a, "", b, "". */
  function Split(s: string): (r: seq<string>)
    ensures |r| >= 1
    ensures forall i | 0 <= i < |r| :: '/' !in r[i]
  {
    if s == [] then [""]
    else
      var rest := Split(s[1..]);
      if s[0] == '/' then [""] + rest
      else [[s[0]] + rest[0]] + rest[1..]
  }

  /** The elements joined with single slashes; the inverse of Split. */
  function Joined(segs: seq<string>): string {
    if |segs| == 0 then ""
    else if |segs| == 1 then segs[0]
    else segs[0] + "/" + Joined(segs[1..])
  }

  predicate NoSlash(segs: seq<string>) {
    forall i | 0 <= i < |segs| :: '/' !in segs[i]
  }

  lemma {:induction false} JoinedSplit(s: string)
    ensures Joined(Split(s)) == s
  {
    if s != [] {
      var rest := Split(s[1..]);
      JoinedSplit(s[1..]);
      if s[0] == '/' {
        assert ([""] + rest)[1..] == rest;
      } else {
        var r := [[s[0]] + rest[0]] + rest[1..];
        if |rest| == 1 {
          assert r == [[s[0]] + rest[0]];
        } else {
          assert r[1..] == rest[1..];
          assert Joined(rest) == rest[0] + "/" + Joined(rest[1..]);
        }
      }
    }
  }

  lemma {:induction false} SplitConcat(x: string, y: string)
    ensures Split(x + "/" + y) == Split(x) + Split(y)
  {
    if x == [] {
      assert x + "/" + y == "/" + y;
      assert ("/" + y)[1..] == y;
    } else {
      var xy := x + "/" + y;
      assert xy[0] == x[0];
      assert xy[1..] == x[1..] + "/" + y;
      SplitConcat(x[1..], y);
    }
  }

  lemma {:induction false} SplitJoined(segs: seq<string>)
    requires |segs| >= 1 && NoSlash(segs)
    ensures Split(Joined(segs)) == segs
  {
    if |segs| == 1 {
      NoSlashSplit(segs[0]);
    } else {
      SplitJoined(segs[1..]);
      NoSlashSplit(segs[0]);
      SplitConcat(segs[0], Joined(segs[1..]));
      assert [segs[0]] + segs[1..] == segs;
    }
  }

  lemma {:induction false} NoSlashSplit(s: string)
    requires '/' !in s
    ensures Split(s) == [s]
  {
    if s != [] {
      assert forall i | 0 <= i < |s[1..]| :: s[1..][i] == s[i + 1];
      NoSlashSplit(s[1..]);
      assert [s[0]] + s[1..] == s;
    }
  }

  // ---------------------------------------------------------------------------------------
  // Clean

  /** One step of Go's `path.Clean` on the elements kept so far: drop empty and "." elements,
      let ".." remove the element before it, keep a leading ".." of a relative path and drop
      one that would climb above the root of a rooted path. */
  function Push(stack: seq<string>, seg: string, rooted: bool): seq<string> {
    if seg == "" || seg == "." then stack
    else if seg == ".." then
      if |stack| > 0 && stack[|stack| - 1] != ".." then stack[..|stack| - 1]
      else if rooted then stack
      else stack + [".."]
    else stack + [seg]
  }

  function Reduce(stack: seq<string>, segs: seq<string>, rooted: bool): seq<string>
    decreases |segs|
  {
    if segs == [] then stack else Reduce(Push(stack, segs[0], rooted), segs[1..], rooted)
  }

  /** Go's `path.Clean`: the shortest lexically equivalent path, "." for the empty path. */
  function Clean(p: string): (r: string)
    ensures r != ""
  {
    if p == "" then "."
    else
      var rooted := p[0] == '/';
      var body := Joined(Reduce([], Split(p), rooted));
      if rooted then "/" + body
      else if body == "" then "."
      else body
  }

  /** Everything up to and including the last slash, as Go's `path.Split` returns it. */
  function DirPrefix(p: string): (r: string)
    ensures |r| <= |p| && r == p[..|r|]
  {
    if p == "" then ""
    else if p[|p| - 1] == '/' then p
    else DirPrefix(p[..|p| - 1])
  }

  /** Go's `path.Dir`: all but the last element, cleaned; "." when there is no slash. */
  function Dir(p: string): string {
    Clean(DirPrefix(p))
  }

  /** Go's `path.Join` of two elements: empty elements are ignored and the result is cleaned. */
  function Join(a: string, b: string): string {
    if a != "" then Clean(a + "/" + b)
    else if b != "" then Clean(b)
    else ""
  }

  // ---------------------------------------------------------------------------------------
  // Paths made of plain names

  /** A path element that Clean leaves alone: not empty, not "." or "..", no slash. */
  predicate Plain(seg: string) {
    seg != "" && seg != "." && seg != ".." && '/' !in seg
  }

  predicate AllPlain(segs: seq<string>) {
    forall i | 0 <= i < |segs| :: Plain(segs[i])
  }

  lemma {:induction false} ReducePlain(stack: seq<string>, segs: seq<string>, rooted: bool)
    requires AllPlain(segs)
    ensures Reduce(stack, segs, rooted) == stack + segs
    decreases |segs|
  {
    if segs != [] {
      ReducePlain(stack + [segs[0]], segs[1..], rooted);
      assert stack + [segs[0]] + segs[1..] == stack + segs;
    }
  }

  lemma {:induction false} JoinedConcat(a: seq<string>, b: seq<string>)
    requires |a| >= 1 && |b| >= 1
    ensures Joined(a + b) == Joined(a) + "/" + Joined(b)
  {
    if |a| > 1 {
      JoinedConcat(a[1..], b);
      assert (a + b)[1..] == a[1..] + b;
    } else {
      assert (a + b)[1..] == b;
    }
  }

  /** A relative path of plain names is already clean. */
  lemma CleanPlain(segs: seq<string>)
    requires |segs| >= 1 && AllPlain(segs)
    ensures Clean(Joined(segs)) == Joined(segs)
  {
    SplitJoined(segs);
    JoinedFirst(segs);
    ReducePlain([], segs, false);
    assert [] + segs == segs;
  }

  lemma {:induction false} JoinedFirst(segs: seq<string>)
    requires |segs| >= 1 && Plain(segs[0])
    ensures Joined(segs) != "" && Joined(segs)[0] == segs[0][0]
  {
  }

  lemma {:induction false} DirPrefixOfLast(d: string, base: string)
    requires '/' !in base
    ensures DirPrefix(d + "/" + base) == d + "/"
    decreases |base|
  {
    var p := d + "/" + base;
    if base == [] {
      assert p == d + "/";
    } else {
      assert p[|p| - 1] == base[|base| - 1];
      assert p[..|p| - 1] == d + "/" + base[..|base| - 1];
      assert '/' !in base[..|base| - 1];
      DirPrefixOfLast(d, base[..|base| - 1]);
    }
  }

  lemma {:induction false} DirPrefixNoSlash(base: string)
    requires '/' !in base
    ensures DirPrefix(base) == ""
    decreases |base|
  {
    if base != [] {
      assert '/' !in base[..|base| - 1];
      DirPrefixNoSlash(base[..|base| - 1]);
    }
  }

  /** For a package document at `dir/base`, an href of plain names resolves to `dir/href`:
      the restricted reading of Join(Dir(FullPath), HREF) with no "." or ".." elements. */
  lemma JoinDirPlain(dirSegs: seq<string>, base: string, hrefSegs: seq<string>)
    requires |dirSegs| >= 1 && AllPlain(dirSegs) && '/' !in base
    requires |hrefSegs| >= 1 && AllPlain(hrefSegs)
    ensures Join(Dir(Joined(dirSegs) + "/" + base), Joined(hrefSegs)) == Joined(dirSegs + hrefSegs)
  {
    var d := Joined(dirSegs);
    var h := Joined(hrefSegs);
    DirPrefixOfLast(d, base);
    SplitConcat(d, "");
    assert d + "/" == d + "/" + "";
    SplitJoined(dirSegs);
    JoinedFirst(dirSegs);
    ReducePlain([], dirSegs, false);
    assert Reduce([], dirSegs + [""], false) == dirSegs by {
      ReduceAppendEmpty([], dirSegs);
      assert [] + dirSegs == dirSegs;
    }
    assert Dir(d + "/" + base) == d;
    SplitConcat(d, h);
    SplitJoined(hrefSegs);
    ReducePlain([], dirSegs + hrefSegs, false);
    JoinedConcat(dirSegs, hrefSegs);
    assert AllPlain(dirSegs + hrefSegs);
    assert [] + (dirSegs + hrefSegs) == dirSegs + hrefSegs;
  }

  lemma {:induction false} ReduceAppendEmpty(stack: seq<string>, segs: seq<string>)
    requires AllPlain(segs)
    ensures Reduce(stack, segs + [""], false) == stack + segs
    decreases |segs|
  {
    if segs == [] {
      assert segs + [""] == [""];
    } else {
      assert (segs + [""])[1..] == segs[1..] + [""];
      ReduceAppendEmpty(stack + [segs[0]], segs[1..]);
      assert stack + [segs[0]] + segs[1..] == stack + segs;
    }
  }

  /** For a package document at the top of the archive, an href of plain names is used as is. */
  lemma JoinDirTopLevel(base: string, hrefSegs: seq<string>)
    requires '/' !in base
    requires |hrefSegs| >= 1 && AllPlain(hrefSegs)
    ensures Join(Dir(base), Joined(hrefSegs)) == Joined(hrefSegs)
  {
    DirPrefixNoSlash(base);
    var h := Joined(hrefSegs);
    assert Dir(base) == ".";
    SplitConcat(".", h);
    SplitJoined(hrefSegs);
    NoSlashSplit(".");
    JoinedFirst(hrefSegs);
    ReducePlain([], hrefSegs, false);
    assert [] + hrefSegs == hrefSegs;
    assert ("." + "/" + h)[0] == '.';
  }
}
