/** POSIX path handling as the scripts use it: `os.path.join`,
    `os.path.basename`, `os.path.splitext`, and pathlib's `suffix`, `stem`
    and `with_suffix` on a final path component. */
module Paths {
  import opened Strings

  /** The index of the last occurrence of c in s, or -1 (`str.rfind`). */
  function RFind(s: string, c: char): (i: int)
    ensures -1 <= i < |s|
    ensures i >= 0 ==> s[i] == c
    ensures forall k :: i < k < |s| ==> s[k] != c
  {
    if s == [] then -1
    else if s[|s| - 1] == c then |s| - 1
    else RFind(s[..|s| - 1], c)
  }

  /** The last occurrence in a concatenation lies in the second part when
      there is one. */
  lemma {:induction false} RFindAppend(a: string, b: string, c: char)
    ensures RFind(a + b, c) == if RFind(b, c) >= 0 then |a| + RFind(b, c) else RFind(a, c)
    decreases |b|
  {
    if b == [] {
      assert a + b == a;
    } else {
      var b' := b[..|b| - 1];
      assert (a + b)[..|a + b| - 1] == a + b';
      if b[|b| - 1] != c {
        RFindAppend(a, b', c);
      }
    }
  }

  /** `os.path.join(a, b)` for a relative b. */
  function Join(a: string, b: string): (p: string)
    ensures StartsWith(b, "/") ==> p == b
    ensures !StartsWith(b, "/") && a != [] && !EndsWith(a, "/") ==> p == a + "/" + b
    ensures EndsWith(p, b)
  {
    if StartsWith(b, "/") then b
    else if a == [] || EndsWith(a, "/") then
      assert (a + b)[|a|..] == b;
      a + b
    else
      assert (a + "/" + b)[|a| + 1..] == b;
      a + "/" + b
  }

  /** `os.path.basename(p)`: what follows the last separator. */
  function Basename(p: string): (b: string)
    ensures EndsWith(p, b) && '/' !in b
  {
    var i := RFind(p, '/');
    var b := p[i + 1..];
    assert |p| - |b| == i + 1;
    assert forall k :: 0 <= k < |b| ==> b[k] != '/' by {
      forall k | 0 <= k < |b| ensures b[k] != '/' {
        assert b[k] == p[i + 1 + k];
      }
    }
    b
  }

  /** The position of the extension dot of a final component under pathlib's
      rule: the last dot, unless it is the first or the last character. */
  function SuffixDot(name: string): (i: int)
    ensures i == -1 || 0 < i < |name| - 1
  {
    var i := RFind(name, '.');
    if 0 < i < |name| - 1 then i else -1
  }

  /** `PurePath(name).suffix` */
  function Suffix(name: string): string
  {
    var i := SuffixDot(name);
    if i < 0 then "" else name[i..]
  }

  /** `PurePath(name).stem` */
  function Stem(name: string): (s: string)
    ensures s + Suffix(name) == name
  {
    var i := SuffixDot(name);
    if i < 0 then name else
      assert name[..i] + name[i..] == name;
      name[..i]
  }

  /** `PurePath(name).with_suffix(suffix)` */
  function WithSuffix(name: string, suffix: string): string
  {
    Stem(name) + suffix
  }

  /** `os.path.splitext(name)[0]` for a name without separators: the name
      without its last extension; a dot that only follows leading dots does
      not start an extension. */
  function SplitExtRoot(name: string): (root: string)
    ensures |root| <= |name| && root == name[..|root|]
  {
    var i := RFind(name, '.');
    if i > 0 && exists k :: 0 <= k < i && name[k] != '.' then name[..i] else name
  }

  /** A prefix before a final component with an extension keeps the
      extension. */
  lemma SuffixAppend(a: string, b: string)
    requires SuffixDot(b) >= 0
    ensures Suffix(a + b) == Suffix(b)
  {
    RFindAppend(a, b, '.');
    assert (a + b)[|a| + SuffixDot(b)..] == b[SuffixDot(b)..];
  }

  /** `with_suffix(ext)` on a non-empty name keeps its stem and gives it the
      extension `ext` when ext is a dot followed by a dot-free, non-empty
      word. */
  lemma WithSuffixSuffix(name: string, ext: string)
    requires name != [] && |ext| >= 2 && ext[0] == '.'
    requires forall k :: 1 <= k < |ext| ==> ext[k] != '.'
    ensures Suffix(WithSuffix(name, ext)) == ext
    ensures Stem(WithSuffix(name, ext)) == Stem(name)
  {
    var stem := Stem(name);
    assert stem != [] by {
      if SuffixDot(name) >= 0 {
        assert |stem| == SuffixDot(name);
      }
    }
    var i := RFind(ext, '.');
    assert i == 0 by {
      assert ext[0] == '.';
    }
    RFindAppend(stem, ext, '.');
    assert (stem + ext)[|stem|..] == ext;
    assert (stem + ext)[..|stem|] == stem;
  }

  /** `s.rstrip('/')` */
  function StripSlashes(s: string): (r: string)
    ensures |r| <= |s| && r == s[..|r|]
    ensures forall k :: |r| <= k < |s| ==> s[k] == '/'
    ensures r != [] ==> r[|r| - 1] != '/'
  {
    if s != [] && s[|s| - 1] == '/' then StripSlashes(s[..|s| - 1]) else s
  }

  /** `os.path.dirname(p)`: what precedes the last separator, without its
      trailing separators unless it consists of nothing else. It is empty
      exactly when p has no separator. */
  function Dirname(p: string): (d: string)
    ensures d == "" <==> '/' !in p
  {
    var i := RFind(p, '/');
    var head := p[..i + 1];
    if exists k :: 0 <= k < |head| && head[k] != '/' then
      var d := StripSlashes(head);
      assert d != [] by {
        var k :| 0 <= k < |head| && head[k] != '/';
        assert k < |d|;
      }
      d
    else
      assert i >= 0 ==> head[i] == '/';
      head
  }
}
