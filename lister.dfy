/**
 * The directory lister (`list_files`, src/main.rs:22-43): collect the names of the
 * entries that could be read, sort them ascending, and reverse the whole list when
 * descending order is configured.
 */
module Lister {
  /** An entry's name as the OS gives it: valid Unicode text or not. */
  datatype FileName = Unicode(text: string) | NotUnicode

  /** One item yielded by the directory iterator: an entry, or a per-entry error. */
  datatype DirEntry = Entry(name: FileName) | EntryError

  /** The outcome of opening the directory. */
  datatype Directory = Opened(entries: seq<DirEntry>) | OpenFailed

  /** The text pushed for an entry: its name, or a single space when the name is not Unicode. */
  function DisplayName(n: FileName): string {
    match n
    case Unicode(text) => text
    case NotUnicode => " "
  }

  /** The names pushed while iterating over `es`, in iteration order. */
  function Collected(es: seq<DirEntry>): (names: seq<string>)
    ensures |names| <= |es|
    decreases |es|
  {
    if es == [] then []
    else
      var init := Collected(es[..|es| - 1]);
      match es[|es| - 1]
      case Entry(n) => init + [DisplayName(n)]
      case EntryError => init
  }

  /** The names gathered from a directory; nothing at all when it could not be opened. */
  function Names(dir: Directory): seq<string> {
    match dir
    case Opened(es) => Collected(es)
    case OpenFailed => []
  }

  /** When every entry is readable, each one yields exactly one name, in order. */
  lemma {:induction false} CollectedKeepsEveryEntry(es: seq<DirEntry>)
    requires forall i :: 0 <= i < |es| ==> es[i].Entry?
    ensures |Collected(es)| == |es|
    ensures forall i :: 0 <= i < |es| ==> Collected(es)[i] == DisplayName(es[i].name)
    decreases |es|
  {
    if es != [] {
      CollectedKeepsEveryEntry(es[..|es| - 1]);
    }
  }

  /** Collecting two runs of entries collects the first run, then the second. */
  lemma {:induction false} CollectedAppend(a: seq<DirEntry>, b: seq<DirEntry>)
    ensures Collected(a + b) == Collected(a) + Collected(b)
    decreases |b|
  {
    if b == [] {
      assert a + b == a;
    } else {
      var init, last := b[..|b| - 1], b[|b| - 1];
      CollectedAppend(a, init);
      assert (a + b)[..|a + b| - 1] == a + init;
      assert (a + b)[|a + b| - 1] == last;
      var tail := if last.Entry? then [DisplayName(last.name)] else [];
      assert Collected(b) == Collected(init) + tail;
      assert Collected(a + b) == Collected(a + init) + tail;
      assert Collected(a) + Collected(init) + tail == Collected(a) + (Collected(init) + tail);
    }
  }

  /**
   * An error entry adds nothing and the names around it keep their order; a readable
   * entry adds its display name in its place.
   */
  lemma CollectedAround(a: seq<DirEntry>, e: DirEntry, b: seq<DirEntry>)
    ensures e.EntryError? ==> Collected(a + [e] + b) == Collected(a) + Collected(b)
    ensures e.Entry? ==> Collected(a + [e] + b) == Collected(a) + [DisplayName(e.name)] + Collected(b)
  {
    CollectedAppend(a + [e], b);
    CollectedAppend(a, [e]);
    assert [e][..0] == [];
  }

  /** Ordering of `String`: lexicographic, comparing characters by code point. */
  predicate LexLe(a: string, b: string)
    decreases |a|
  {
    if a == [] then true
    else if b == [] then false
    else if a[0] != b[0] then a[0] < b[0]
    else LexLe(a[1..], b[1..])
  }

  lemma {:induction false} LexLeTotal(a: string, b: string)
    ensures LexLe(a, b) || LexLe(b, a)
    decreases |a|
  {
    if a != [] && b != [] && a[0] == b[0] {
      LexLeTotal(a[1..], b[1..]);
    }
  }

  lemma {:induction false} LexLeAntisymmetric(a: string, b: string)
    requires LexLe(a, b) && LexLe(b, a)
    ensures a == b
    decreases |a|
  {
    if a != [] && b != [] && a[0] == b[0] {
      LexLeAntisymmetric(a[1..], b[1..]);
      assert a == [a[0]] + a[1..] && b == [b[0]] + b[1..];
    }
  }

  lemma {:induction false} LexLeTransitive(a: string, b: string, c: string)
    requires LexLe(a, b) && LexLe(b, c)
    ensures LexLe(a, c)
    decreases |a|
  {
    if a != [] && b != [] && c != [] && a[0] == b[0] && b[0] == c[0] {
      LexLeTransitive(a[1..], b[1..], c[1..]);
    }
  }

  predicate Ascending(s: seq<string>) {
    forall i, j :: 0 <= i < j < |s| ==> LexLe(s[i], s[j])
  }

  predicate Descending(s: seq<string>) {
    forall i, j :: 0 <= i < j < |s| ==> LexLe(s[j], s[i])
  }

  function Insert(x: string, s: seq<string>): seq<string> {
    if s == [] then [x]
    else if LexLe(x, s[0]) then [x] + s
    else [s[0]] + Insert(x, s[1..])
  }

  /**
   * The ascending order that `Vec::sort` establishes. Any sorting algorithm gives
   * this same sequence: see AscendingPermutationUnique.
   */
  function SortAscending(s: seq<string>): seq<string> {
    if s == [] then [] else Insert(s[0], SortAscending(s[1..]))
  }

  /** Every name of `s` is at or above `x`. */
  predicate AtMost(x: string, s: seq<string>) {
    forall k :: 0 <= k < |s| ==> LexLe(x, s[k])
  }

  lemma ConsAscending(x: string, s: seq<string>)
    requires AtMost(x, s) && Ascending(s)
    ensures Ascending([x] + s)
  {
    var r := [x] + s;
    forall i, j | 0 <= i < j < |r| ensures LexLe(r[i], r[j]) {
      if i > 0 {
        assert r[i] == s[i - 1];
      }
    }
  }

  lemma {:induction false} InsertPermutation(x: string, s: seq<string>)
    ensures multiset(Insert(x, s)) == multiset(s) + multiset{x}
    decreases |s|
  {
    if s != [] && !LexLe(x, s[0]) {
      InsertPermutation(x, s[1..]);
      assert s == [s[0]] + s[1..];
    }
  }

  lemma {:induction false} InsertAscending(x: string, s: seq<string>)
    requires Ascending(s)
    ensures Ascending(Insert(x, s))
    decreases |s|
  {
    if s == [] {
    } else if LexLe(x, s[0]) {
      forall k | 0 <= k < |s| ensures LexLe(x, s[k]) {
        if k > 0 {
          LexLeTransitive(x, s[0], s[k]);
        }
      }
      ConsAscending(x, s);
    } else {
      LexLeTotal(x, s[0]);
      var tail := s[1..];
      InsertAscending(x, tail);
      InsertPermutation(x, tail);
      var t := Insert(x, tail);
      forall k | 0 <= k < |t| ensures LexLe(s[0], t[k]) {
        assert t[k] in multiset(t);
        if t[k] != x {
          assert t[k] in multiset(tail);
          var m :| 0 <= m < |tail| && tail[m] == t[k];
          assert s[m + 1] == t[k];
        }
      }
      ConsAscending(s[0], t);
    }
  }

  /** The sort puts its input in ascending order and neither adds nor drops a name. */
  lemma {:induction false} SortAscendingCorrect(s: seq<string>)
    ensures Ascending(SortAscending(s))
    ensures multiset(SortAscending(s)) == multiset(s)
    decreases |s|
  {
    if s != [] {
      SortAscendingCorrect(s[1..]);
      InsertAscending(s[0], SortAscending(s[1..]));
      InsertPermutation(s[0], SortAscending(s[1..]));
      assert s == [s[0]] + s[1..];
    }
  }

  lemma {:induction false} LexLeReflexive(a: string)
    ensures LexLe(a, a)
    decreases |a|
  {
    if a != [] {
      LexLeReflexive(a[1..]);
    }
  }

  /** The first name of an ascending sequence is at or below every name it holds. */
  lemma HeadIsLeast(a: seq<string>, x: string)
    requires Ascending(a) && x in multiset(a)
    ensures LexLe(a[0], x)
  {
    var i :| 0 <= i < |a| && a[i] == x;
    if i == 0 {
      LexLeReflexive(x);
    }
  }

  lemma TailsPermutation(a: seq<string>, b: seq<string>)
    requires a != [] && b != [] && a[0] == b[0]
    requires multiset(a) == multiset(b)
    ensures multiset(a[1..]) == multiset(b[1..])
  {
    assert a == [a[0]] + a[1..] && b == [b[0]] + b[1..];
    assert multiset(a[1..]) == multiset(a) - multiset{a[0]};
    assert multiset(b[1..]) == multiset(b) - multiset{b[0]};
  }

  /** Two ascending sequences holding the same names are the same sequence. */
  lemma {:induction false} AscendingPermutationUnique(a: seq<string>, b: seq<string>)
    requires Ascending(a) && Ascending(b)
    requires multiset(a) == multiset(b)
    ensures a == b
    decreases |a|
  {
    if a != [] {
      assert |b| == |multiset(b)| == |multiset(a)| == |a|;
      HeadIsLeast(a, b[0]);
      HeadIsLeast(b, a[0]);
      LexLeAntisymmetric(a[0], b[0]);
      TailsPermutation(a, b);
      AscendingPermutationUnique(a[1..], b[1..]);
      assert a == [a[0]] + a[1..] && b == [b[0]] + b[1..];
    }
  }

  function Reverse<T>(s: seq<T>): (r: seq<T>)
    ensures |r| == |s|
    ensures forall i :: 0 <= i < |s| ==> r[i] == s[|s| - 1 - i]
  {
    if s == [] then [] else Reverse(s[1..]) + [s[0]]
  }

  lemma {:induction false} ReversePermutation<T>(s: seq<T>)
    ensures multiset(Reverse(s)) == multiset(s)
    decreases |s|
  {
    if s != [] {
      ReversePermutation(s[1..]);
      assert s == [s[0]] + s[1..];
    }
  }

  /** The list `list_files` returns for a directory. */
  function Listing(dir: Directory, sortDescending: bool): seq<string> {
    var ascending := SortAscending(Names(dir));
    if sortDescending then Reverse(ascending) else ascending
  }

  /**
   * The listing holds exactly the collected names; ascending by default, and
   * otherwise exactly the reverse of the ascending listing, hence descending.
   */
  lemma ListingOrder(dir: Directory, sortDescending: bool)
    ensures multiset(Listing(dir, sortDescending)) == multiset(Names(dir))
    ensures !sortDescending ==> Ascending(Listing(dir, sortDescending))
    ensures sortDescending ==> Listing(dir, true) == Reverse(Listing(dir, false))
    ensures sortDescending ==> Descending(Listing(dir, sortDescending))
  {
    SortAscendingCorrect(Names(dir));
    ReversePermutation(SortAscending(Names(dir)));
  }

  /**
   * The listing depends only on which names were collected, not on the order in
   * which the directory iterator yielded them.
   */
  lemma ListingIgnoresIterationOrder(d1: Directory, d2: Directory, sortDescending: bool)
    requires multiset(Names(d1)) == multiset(Names(d2))
    ensures Listing(d1, sortDescending) == Listing(d2, sortDescending)
  {
    SortAscendingCorrect(Names(d1));
    SortAscendingCorrect(Names(d2));
    AscendingPermutationUnique(SortAscending(Names(d1)), SortAscending(Names(d2)));
  }

  /** A directory that cannot be opened lists no file, in either order. */
  lemma ListingOfUnopenedDirectory(sortDescending: bool)
    ensures Listing(OpenFailed, sortDescending) == []
  {
    ListingOrder(OpenFailed, sortDescending);
  }

  /** `list_files`: push each readable entry's name, sort, then reverse if descending. */
  method ListFiles(dir: Directory, sortDescending: bool) returns (out: seq<string>)
    ensures out == Listing(dir, sortDescending)
    ensures multiset(out) == multiset(Names(dir))
    ensures !sortDescending ==> Ascending(out)
    ensures sortDescending ==> Descending(out) && out == Reverse(Listing(dir, false))
  {
    out := [];
    match dir {
      case Opened(entries) =>
        for i := 0 to |entries|
          invariant out == Collected(entries[..i])
        {
          assert entries[..i + 1][..i] == entries[..i];
          match entries[i] {
            case Entry(name) => out := out + [DisplayName(name)];
            case EntryError =>
          }
        }
        assert entries[..|entries|] == entries;
      case OpenFailed =>
    }
    out := SortAscending(out);
    if sortDescending {
      out := Reverse(out);
    }
    ListingOrder(dir, sortDescending);
  }

  /** A directory yielding b.mp4, a.mp4, c.mp4 is listed as a.mp4, b.mp4, c.mp4 by default. */
  lemma ThreeNamesListed()
    ensures Listing(Opened([Entry(Unicode("b.mp4")), Entry(Unicode("a.mp4")), Entry(Unicode("c.mp4"))]), false)
      == ["a.mp4", "b.mp4", "c.mp4"]
  {
    var es := [Entry(Unicode("b.mp4")), Entry(Unicode("a.mp4")), Entry(Unicode("c.mp4"))];
    assert es[..2][..1] == es[..1] && es[..2] == es[..|es| - 1];
    assert Collected(es) == ["b.mp4", "a.mp4", "c.mp4"];
    assert LexLe("a.mp4", "c.mp4") && LexLe("b.mp4", "c.mp4") && !LexLe("b.mp4", "a.mp4");
    assert Insert("a.mp4", ["c.mp4"]) == ["a.mp4", "c.mp4"];
    assert Insert("b.mp4", ["c.mp4"]) == ["b.mp4", "c.mp4"];
  }
}
