/**
 * collect_crop_files: the crop files of one game directory in collage order.
 * Only regular files with the suffix ".png" are kept; those whose stem starts
 * with "nearest" come first and those whose stem starts with "bilinear" next,
 * both in the order the directory listing gives them, and the rest follow
 * sorted.
 */
module CropFiles {
  import opened Ordering
  import Paths
  import CropCommands

  /** One entry of a directory listing: its name and whether it is a regular file. */
  datatype Entry = Entry(name: string, isFile: bool)

  /** The entry is a regular file whose suffix is ".png". */
  predicate Kept(e: Entry) {
    e.isFile && Paths.Suffix(e.name) == ".png"
  }

  /** The collage group of an entry, decided on its stem. */
  function GroupOf(e: Entry): nat {
    CropCommands.Group(Paths.Stem(e.name))
  }

  /** The paths of the kept entries of group g, in listing order. */
  function Collected(dir: string, entries: seq<Entry>, g: nat): seq<string>
    decreases |entries|
  {
    if |entries| == 0 then []
    else
      var e := entries[|entries| - 1];
      Collected(dir, entries[..|entries| - 1], g) + if Kept(e) && GroupOf(e) == g then [Paths.Join(dir, e.name)] else []
  }

  /** The paths of all kept entries, in listing order. */
  function KeptPaths(dir: string, entries: seq<Entry>): seq<string>
    decreases |entries|
  {
    if |entries| == 0 then []
    else
      var e := entries[|entries| - 1];
      KeptPaths(dir, entries[..|entries| - 1]) + if Kept(e) then [Paths.Join(dir, e.name)] else []
  }

  /** The result of collect_crop_files: first group, second group, then the rest sorted. */
  function CropFileOrder(dir: string, entries: seq<Entry>): seq<string> {
    Collected(dir, entries, 0) + Collected(dir, entries, 1) + SortNames(Collected(dir, entries, 2))
  }

  /**
   * The listing loop of collect_crop_files: each kept entry is appended to
   * the list of its group; only the last list is sorted.
   */
  method CollectCropFiles(dir: string, entries: seq<Entry>) returns (crops: seq<string>)
    ensures crops == CropFileOrder(dir, entries)
  {
    var first: seq<string> := [];
    var second: seq<string> := [];
    var files: seq<string> := [];
    for i := 0 to |entries|
      invariant first == Collected(dir, entries[..i], 0)
      invariant second == Collected(dir, entries[..i], 1)
      invariant files == Collected(dir, entries[..i], 2)
    {
      assert entries[..i + 1][..i] == entries[..i];
      var e := entries[i];
      if !e.isFile || Paths.Suffix(e.name) != ".png" {
        continue;
      } else if "nearest" <= Paths.Stem(e.name) {
        first := first + [Paths.Join(dir, e.name)];
      } else if "bilinear" <= Paths.Stem(e.name) {
        second := second + [Paths.Join(dir, e.name)];
      } else {
        files := files + [Paths.Join(dir, e.name)];
      }
    }
    assert entries[..|entries|] == entries;
    files := SortNames(files);
    crops := first + second + files;
  }

  /** The three groups together hold exactly the kept entries. */
  lemma {:induction false} GroupsPartition(dir: string, entries: seq<Entry>)
    ensures multiset(Collected(dir, entries, 0)) + multiset(Collected(dir, entries, 1))
          + multiset(Collected(dir, entries, 2)) == multiset(KeptPaths(dir, entries))
    decreases |entries|
  {
    if |entries| > 0 {
      GroupsPartition(dir, entries[..|entries| - 1]);
    }
  }

  /** The collage order is a permutation of the kept files: none lost, none added. */
  lemma CropFileOrderPermutation(dir: string, entries: seq<Entry>)
    ensures multiset(CropFileOrder(dir, entries)) == multiset(KeptPaths(dir, entries))
  {
    GroupsPartition(dir, entries);
    SortNamesCorrect(Collected(dir, entries, 2));
  }

  /** Every path of group g names a kept entry of that group. */
  lemma {:induction false} CollectedGroup(dir: string, entries: seq<Entry>, g: nat, x: string)
    requires x in Collected(dir, entries, g)
    ensures exists e :: e in entries && Kept(e) && GroupOf(e) == g && x == Paths.Join(dir, e.name)
    decreases |entries|
  {
    var n := |entries|;
    if x in Collected(dir, entries[..n - 1], g) {
      CollectedGroup(dir, entries[..n - 1], g, x);
      var e :| e in entries[..n - 1] && Kept(e) && GroupOf(e) == g && x == Paths.Join(dir, e.name);
      assert e in entries;
    } else {
      assert entries[n - 1] in entries;
    }
  }

  /** The group a crop path belongs to, read from the path itself. */
  function PathGroup(path: string): nat {
    CropCommands.Group(Paths.PathStem(path))
  }

  lemma PathGroupOf(dir: string, entries: seq<Entry>, g: nat, x: string)
    requires forall e :: e in entries ==> '/' !in e.name
    requires x in multiset(Collected(dir, entries, g))
    ensures PathGroup(x) == g
  {
    CollectedGroup(dir, entries, g, x);
    var e :| e in entries && Kept(e) && GroupOf(e) == g && x == Paths.Join(dir, e.name);
    Paths.PathStemOfJoin(dir, e.name);
  }

  /** Every element of a rearrangement of group g belongs to group g. */
  lemma GroupMember(dir: string, entries: seq<Entry>, g: nat, s: seq<string>, k: nat)
    requires forall e :: e in entries ==> '/' !in e.name
    requires multiset(s) == multiset(Collected(dir, entries, g)) && k < |s|
    ensures PathGroup(s[k]) == g
  {
    assert s[k] in multiset(s);
    PathGroupOf(dir, entries, g, s[k]);
  }

  /** Sorting the last group keeps every crop in it. */
  lemma SortedRestMember(dir: string, entries: seq<Entry>, k: nat)
    requires forall e :: e in entries ==> '/' !in e.name
    requires k < |SortNames(Collected(dir, entries, 2))|
    ensures PathGroup(SortNames(Collected(dir, entries, 2))[k]) == 2
  {
    SortNamesCorrect(Collected(dir, entries, 2));
    GroupMember(dir, entries, 2, SortNames(Collected(dir, entries, 2)), k);
  }

  /** Position i of three concatenated groups lies in the group its index falls into. */
  lemma ConcatGroupAt(a: seq<string>, b: seq<string>, c: seq<string>, i: nat)
    requires forall k :: 0 <= k < |a| ==> PathGroup(a[k]) == 0
    requires forall k :: 0 <= k < |b| ==> PathGroup(b[k]) == 1
    requires forall k :: 0 <= k < |c| ==> PathGroup(c[k]) == 2
    requires i < |a + b + c|
    ensures PathGroup((a + b + c)[i]) == if i < |a| then 0 else if i < |a| + |b| then 1 else 2
  {
    if i < |a| {
      assert (a + b + c)[i] == a[i];
    } else if i < |a| + |b| {
      assert (a + b + c)[i] == b[i - |a|];
    } else {
      assert (a + b + c)[i] == c[i - |a| - |b|];
    }
  }

  /** The group of the crop at position i of the collage order, from the sizes of the first two groups. */
  lemma CropFileOrderGroupAt(dir: string, entries: seq<Entry>, i: nat)
    requires forall e :: e in entries ==> '/' !in e.name
    requires i < |CropFileOrder(dir, entries)|
    ensures var n0, n1 := |Collected(dir, entries, 0)|, |Collected(dir, entries, 1)|;
      PathGroup(CropFileOrder(dir, entries)[i]) == if i < n0 then 0 else if i < n0 + n1 then 1 else 2
  {
    var c0, c1 := Collected(dir, entries, 0), Collected(dir, entries, 1);
    var rest := SortNames(Collected(dir, entries, 2));
    forall k | 0 <= k < |c0| ensures PathGroup(c0[k]) == 0 {
      GroupMember(dir, entries, 0, c0, k);
    }
    forall k | 0 <= k < |c1| ensures PathGroup(c1[k]) == 1 {
      GroupMember(dir, entries, 1, c1, k);
    }
    forall k | 0 <= k < |rest| ensures PathGroup(rest[k]) == 2 {
      SortedRestMember(dir, entries, k);
    }
    ConcatGroupAt(c0, c1, rest, i);
  }

  /**
   * In collage order the groups never go back: a "nearest" crop precedes
   * every "bilinear" crop, which precedes every other crop.
   */
  lemma CropFileOrderGroups(dir: string, entries: seq<Entry>)
    requires forall e :: e in entries ==> '/' !in e.name
    ensures var crops := CropFileOrder(dir, entries);
      forall i, j :: 0 <= i < j < |crops| ==> PathGroup(crops[i]) <= PathGroup(crops[j])
  {
    var crops := CropFileOrder(dir, entries);
    forall i, j | 0 <= i < j < |crops| ensures PathGroup(crops[i]) <= PathGroup(crops[j]) {
      CropFileOrderGroupAt(dir, entries, i);
      CropFileOrderGroupAt(dir, entries, j);
    }
  }

  /** Only the last group is sorted: the crops after the first two groups are in order. */
  lemma CropFileOrderRestSorted(dir: string, entries: seq<Entry>)
    ensures var crops := CropFileOrder(dir, entries);
      var k := |Collected(dir, entries, 0)| + |Collected(dir, entries, 1)|;
      k <= |crops| && Sorted(crops[k..]) && crops[..k] == Collected(dir, entries, 0) + Collected(dir, entries, 1)
  {
    SortNamesCorrect(Collected(dir, entries, 2));
    var crops := CropFileOrder(dir, entries);
    var k := |Collected(dir, entries, 0)| + |Collected(dir, entries, 1)|;
    assert crops[k..] == SortNames(Collected(dir, entries, 2));
  }

  /** Paths in one directory compare like their names. */
  lemma {:induction false} SameDirectoryOrder(p: string, a: string, b: string)
    ensures LexLe(p + a, p + b) <==> LexLe(a, b)
    decreases |p|
  {
    if |p| > 0 {
      assert (p + a)[1..] == p[1..] + a;
      assert (p + b)[1..] == p[1..] + b;
      SameDirectoryOrder(p[1..], a, b);
    } else {
      assert p + a == a && p + b == b;
    }
  }

  /** Sorting the paths of one directory orders them by name. */
  lemma JoinOrder(dir: string, a: string, b: string)
    ensures LexLe(Paths.Join(dir, a), Paths.Join(dir, b)) <==> LexLe(a, b)
  {
    assert Paths.Join(dir, a) == (dir + "/") + a;
    assert Paths.Join(dir, b) == (dir + "/") + b;
    SameDirectoryOrder(dir + "/", a, b);
  }
}
