/** Byte strings, the literal search behind Go's `bytes.Cut`, and Go's `strings.TrimSpace`. */
module Text {
  import opened Wrappers

  newtype byte = x: int | 0 <= x < 256

  /** The UTF-8 encoding of an ASCII string literal, as Go's `[]byte("...")` conversion gives. */
  function Ascii(s: string): (r: seq<byte>)
    requires forall i | 0 <= i < |s| :: s[i] < 128 as char
    ensures |r| == |s|
    ensures forall i | 0 <= i < |s| :: r[i] as int == s[i] as int
  {
    seq(|s|, i requires 0 <= i < |s| => s[i] as int as byte)
  }

  // ---------------------------------------------------------------------------------------
  // Literal search

  /** `sep` occurs in `s` starting at position `i`. */
  predicate OccursAt(s: seq<byte>, sep: seq<byte>, i: nat) {
    i + |sep| <= |s| && s[i..i + |sep|] == sep
  }

  lemma OccursAtTail(s: seq<byte>, sep: seq<byte>, k: nat)
    requires |s| > 0
    ensures OccursAt(s[1..], sep, k) <==> OccursAt(s, sep, k + 1)
  {
    if k + |sep| <= |s[1..]| {
      assert s[1..][k..k + |sep|] == s[k + 1..k + 1 + |sep|];
    }
  }

  /** The position of the first occurrence of `sep` in `s`, as Go's `bytes.Index` computes it. */
  function Index(s: seq<byte>, sep: seq<byte>): (r: Option<nat>)
    ensures r.Some? ==> OccursAt(s, sep, r.value)
    ensures r.Some? ==> forall j | 0 <= j < r.value :: !OccursAt(s, sep, j)
    ensures r.None? ==> forall j | 0 <= j <= |s| :: !OccursAt(s, sep, j)
    decreases |s|
  {
    if |s| < |sep| then None
    else if s[..|sep|] == sep then Some(0)
    else
      var rest := Index(s[1..], sep);
      assert !OccursAt(s, sep, 0) by { assert s[0..|sep|] == s[..|sep|]; }
      assert forall j | 1 <= j <= |s| :: OccursAt(s, sep, j) == OccursAt(s[1..], sep, j - 1) by {
        forall j | 1 <= j <= |s| ensures OccursAt(s, sep, j) == OccursAt(s[1..], sep, j - 1) {
          OccursAtTail(s, sep, j - 1);
        }
      }
      match rest
      case None => None
      case Some(k) => Some(k + 1)
  }

  datatype CutResult = CutResult(before: seq<byte>, after: seq<byte>, found: bool)

  /** Go's `bytes.Cut`: the text around the first occurrence of `sep`, or `s` itself and an
      empty remainder when `sep` does not occur. */
  function Cut(s: seq<byte>, sep: seq<byte>): (r: CutResult)
    ensures r.found ==> r.before + sep + r.after == s
    ensures r.found ==> forall j | 0 <= j < |r.before| :: !OccursAt(s, sep, j)
    ensures !r.found ==> r.before == s && r.after == []
    ensures !r.found <==> forall j | 0 <= j <= |s| :: !OccursAt(s, sep, j)
  {
    match Index(s, sep)
    case None => CutResult(s, [], false)
    case Some(i) =>
      assert s[..i] + sep + s[i + |sep|..] == s by {
        assert s[i..i + |sep|] == sep;
        assert s == s[..i] + s[i..i + |sep|] + s[i + |sep|..];
      }
      CutResult(s[..i], s[i + |sep|..], true)
  }

  /** `sep` does not occur in `s` at any position before `i`. */
  predicate NoneBefore(s: seq<byte>, sep: seq<byte>, i: nat) {
    forall j | 0 <= j < i :: !OccursAt(s, sep, j)
  }

  /** Cut splits at a given occurrence exactly when it is the first one. */
  lemma CutAt(a: seq<byte>, sep: seq<byte>, b: seq<byte>)
    requires NoneBefore(a + sep + b, sep, |a|)
    ensures Cut(a + sep + b, sep) == CutResult(a, b, true)
  {
    var s := a + sep + b;
    assert s[|a|..|a| + |sep|] == sep;
    assert OccursAt(s, sep, |a|);
    var c := Cut(s, sep);
    assert c.found;
    assert |c.before| == |a| by {
      if |c.before| < |a| {
        assert OccursAt(s, sep, |c.before|) by {
          assert s[|c.before|..|c.before| + |sep|] == (c.before + sep + c.after)[|c.before|..|c.before| + |sep|];
        }
      }
    }
    assert c.before == s[..|a|] == a;
    assert c.after == s[|a| + |sep|..] == b;
  }

  // ---------------------------------------------------------------------------------------
  // Go's strings.TrimSpace

  /** The characters Go's `unicode.IsSpace` accepts: the Unicode White_Space property. */
  const WhiteSpace: set<char> := {
    '\t', '\n', '\U{B}', '\U{C}', '\r', ' ', '\U{85}', '\U{A0}', '\U{1680}',
    '\U{2000}', '\U{2001}', '\U{2002}', '\U{2003}', '\U{2004}', '\U{2005}', '\U{2006}',
    '\U{2007}', '\U{2008}', '\U{2009}', '\U{200A}',
    '\U{2028}', '\U{2029}', '\U{202F}', '\U{205F}', '\U{3000}'
  }

  predicate IsSpace(c: char) {
    c in WhiteSpace
  }

  predicate AllSpace(s: string) {
    forall i | 0 <= i < |s| :: IsSpace(s[i])
  }

  function TrimLeft(s: string): (r: string)
    ensures |r| <= |s| && r == s[|s| - |r|..]
    ensures AllSpace(s[..|s| - |r|])
    ensures r == [] || !IsSpace(r[0])
  {
    if s != [] && IsSpace(s[0]) then
      var r := TrimLeft(s[1..]);
      assert s[..|s| - |r|] == [s[0]] + s[1..][..|s[1..]| - |r|];
      r
    else s
  }

  function TrimRight(s: string): (r: string)
    ensures |r| <= |s| && r == s[..|r|]
    ensures AllSpace(s[|r|..])
    ensures r == [] || !IsSpace(r[|r| - 1])
  {
    if s != [] && IsSpace(s[|s| - 1]) then
      var r := TrimRight(s[..|s| - 1]);
      assert s[|r|..] == s[..|s| - 1][|r|..] + [s[|s| - 1]];
      r
    else s
  }

  /** No white space at either end. */
  predicate Trimmed(s: string) {
    s == [] || (!IsSpace(s[0]) && !IsSpace(s[|s| - 1]))
  }

  /** Go's `strings.TrimSpace`: `s` without its leading and trailing white space. */
  function TrimSpace(s: string): (r: string)
    ensures Trimmed(r)
  {
    var l := TrimLeft(s);
    var r := TrimRight(l);
    assert r != [] ==> r[0] == l[0];
    r
  }

  lemma {:induction false} TrimLeftBlank(s: string)
    ensures TrimLeft(s) == [] <==> AllSpace(s)
    decreases |s|
  {
    if s != [] && IsSpace(s[0]) {
      TrimLeftBlank(s[1..]);
      assert forall i | 1 <= i < |s| :: s[i] == s[1..][i - 1];
    }
  }

  lemma {:induction false} TrimRightBlank(s: string)
    ensures TrimRight(s) == [] <==> AllSpace(s)
    decreases |s|
  {
    if s != [] && IsSpace(s[|s| - 1]) {
      TrimRightBlank(s[..|s| - 1]);
      assert forall i | 0 <= i < |s| - 1 :: s[i] == s[..|s| - 1][i];
    }
  }

  /** Text trims to nothing exactly when it is all white space ("blank" character data). */
  lemma TrimSpaceBlank(s: string)
    ensures TrimSpace(s) == [] <==> AllSpace(s)
  {
    var l := TrimLeft(s);
    TrimLeftBlank(s);
    TrimRightBlank(l);
    assert l != [] ==> !AllSpace(l) by {
      if l != [] {
        assert !IsSpace(l[0]);
      }
    }
  }

  /** Text with no white space at either end is its own trim. */
  lemma TrimSpaceOfTrimmed(s: string)
    requires Trimmed(s)
    ensures TrimSpace(s) == s
  {
  }

  /** TrimSpace is idempotent. */
  lemma TrimSpaceIdempotent(s: string)
    ensures TrimSpace(TrimSpace(s)) == TrimSpace(s)
  {
    TrimSpaceOfTrimmed(TrimSpace(s));
  }
}
