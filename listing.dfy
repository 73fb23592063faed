/** Directory listings as the scripts see them: `os.listdir` yields the
    entries of a folder in an arbitrary order, a comprehension keeps those
    whose name passes a test, and `sorted` orders the names by code point. */
module Listing {
  import opened Strings

  /** A directory entry: its file name and what the program can learn from
      the file (an image, an embedding statistic, a sub-folder). */
  datatype Entry<C> = Entry(name: string, content: C)

  /** Python's `a <= b` on strings: lexicographic by code point. */
  predicate NameLe(a: string, b: string)
  {
    if a == [] then true
    else if b == [] then false
    else if a[0] != b[0] then a[0] < b[0]
    else NameLe(a[1..], b[1..])
  }

  lemma {:induction false} NameLeTotal(a: string, b: string)
    ensures NameLe(a, b) || NameLe(b, a)
  {
    if a != [] && b != [] && a[0] == b[0] {
      NameLeTotal(a[1..], b[1..]);
    }
  }

  lemma {:induction false} NameLeTransitive(a: string, b: string, c: string)
    requires NameLe(a, b) && NameLe(b, c)
    ensures NameLe(a, c)
  {
    if a != [] && b != [] && c != [] && a[0] == b[0] && b[0] == c[0] {
      NameLeTransitive(a[1..], b[1..], c[1..]);
    }
  }

  lemma {:induction false} NameLeAntisymmetric(a: string, b: string)
    requires NameLe(a, b) && NameLe(b, a)
    ensures a == b
  {
    if a != [] && b != [] {
      NameLeAntisymmetric(a[1..], b[1..]);
      assert a == [a[0]] + a[1..] && b == [b[0]] + b[1..];
    }
  }

  predicate SortedByName<C>(s: seq<Entry<C>>)
  {
    forall i, j :: 0 <= i < j < |s| ==> NameLe(s[i].name, s[j].name)
  }

  /** `[e for e in s if keep(e)]`: order and multiplicity are kept. */
  function Filter<C(!new)>(s: seq<Entry<C>>, keep: Entry<C> -> bool): (r: seq<Entry<C>>)
    ensures |r| <= |s|
    ensures forall e :: e in r <==> e in s && keep(e)
    ensures forall e :: multiset(r)[e] == if keep(e) then multiset(s)[e] else 0
  {
    if s == [] then []
    else
      var rest := Filter(s[1..], keep);
      assert s == [s[0]] + s[1..];
      if keep(s[0]) then [s[0]] + rest else rest
  }

  function Insert<C(!new)>(x: Entry<C>, s: seq<Entry<C>>): (r: seq<Entry<C>>)
    requires SortedByName(s)
    ensures SortedByName(r)
    ensures multiset(r) == multiset(s) + multiset{x}
    ensures |r| == |s| + 1
  {
    if s == [] then [x]
    else if NameLe(x.name, s[0].name) then
      assert forall j :: 0 <= j < |s| ==> NameLe(x.name, s[j].name) by {
        forall j | 0 <= j < |s| ensures NameLe(x.name, s[j].name) {
          if j > 0 { NameLeTransitive(x.name, s[0].name, s[j].name); }
        }
      }
      [x] + s
    else
      NameLeTotal(x.name, s[0].name);
      var rest := Insert(x, s[1..]);
      assert s == [s[0]] + s[1..];
      forall k | 0 <= k < |rest|
        ensures NameLe(s[0].name, rest[k].name)
      {
        assert rest[k] in multiset(rest);
        if rest[k] != x {
          assert rest[k] in multiset(s[1..]);
          var j :| 0 <= j < |s[1..]| && s[1..][j] == rest[k];
          assert s[j + 1] == rest[k];
        }
      }
      LeHeadSorted(s[0], rest);
      [s[0]] + rest
  }

  lemma LeHeadSorted<C>(h: Entry<C>, t: seq<Entry<C>>)
    requires SortedByName(t)
    requires forall k :: 0 <= k < |t| ==> NameLe(h.name, t[k].name)
    ensures SortedByName([h] + t)
  {
    var r := [h] + t;
    forall i, j | 0 <= i < j < |r| ensures NameLe(r[i].name, r[j].name) {
      if i > 0 { assert r[i] == t[i - 1] && r[j] == t[j - 1]; }
      else { assert r[j] == t[j - 1]; }
    }
  }

  /** `sorted(...)` on entries keyed by name: an ordered permutation. */
  function SortByName<C(!new)>(s: seq<Entry<C>>): (r: seq<Entry<C>>)
    ensures SortedByName(r)
    ensures multiset(r) == multiset(s)
    ensures |r| == |s|
  {
    if s == [] then [] else
      assert s == [s[0]] + s[1..];
      Insert(s[0], SortByName(s[1..]))
  }

  /** `sorted([e for e in listing if keep(e)])`: exactly the entries that
      pass the test, in name order. */
  function SortedSelection<C(!new)>(listing: seq<Entry<C>>, keep: Entry<C> -> bool): (r: seq<Entry<C>>)
    ensures SortedByName(r)
    ensures |r| <= |listing|
    ensures forall e :: e in r <==> e in listing && keep(e)
    ensures forall e :: multiset(r)[e] == if keep(e) then multiset(listing)[e] else 0
  {
    var f := Filter(listing, keep);
    var r := SortByName(f);
    assert forall e :: e in r <==> e in f by {
      forall e ensures e in r <==> e in f {
        assert e in r <==> multiset(r)[e] > 0;
        assert e in f <==> multiset(f)[e] > 0;
      }
    }
    r
  }

  /** `f.endswith('.jpg')`: case-sensitive. */
  predicate HasJpgName<C>(e: Entry<C>)
  {
    EndsWith(e.name, ".jpg")
  }

  /** `sorted([f for f in os.listdir(folder) if f.endswith('.jpg')])` */
  function JpgEntries<C(!new)>(listing: seq<Entry<C>>): (r: seq<Entry<C>>)
    ensures SortedByName(r) && |r| <= |listing|
    ensures forall e :: e in r <==> e in listing && EndsWith(e.name, ".jpg")
    ensures forall e :: multiset(r)[e] == if EndsWith(e.name, ".jpg") then multiset(listing)[e] else 0
  {
    SortedSelection(listing, HasJpgName)
  }
}
