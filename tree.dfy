/** The helpers of the hw1 tree printer: the three-slice stack, the swap
    sort that orders a directory listing, the selection of what is pushed,
    the indentation prefix and the file size label.

    The filesystem (opening, changing into and listing directories) is not
    modelled: a listing is an input sequence of entries. */
module Tree {
  import opened Text

  // ---------------------------------------------------------------------
  // The stack

  /** Three parallel slices and their common length. */
  class Stack {
    var filename: seq<string>
    var isdir: seq<bool>
    var size: seq<int>
    var length: int

    ghost predicate Valid()
      reads this
    {
      |filename| == length && |isdir| == length && |size| == length
    }

    constructor ()
      ensures Valid() && length == 0
      ensures filename == [] && isdir == [] && size == []
    {
      filename, isdir, size := [], [], [];
      length := 0;
    }

    /** Init: all three slices empty, length 0. */
    method Init()
      modifies this
      ensures Valid() && length == 0
      ensures filename == [] && isdir == [] && size == []
    {
      filename := [];
      isdir := [];
      size := [];
      length := 0;
    }

    /** Push: one more entry on top of each slice. */
    method Push(el: string, dir: bool, sz: int)
      requires Valid()
      modifies this
      ensures Valid() && length == old(length) + 1
      ensures filename == old(filename) + [el]
      ensures isdir == old(isdir) + [dir]
      ensures size == old(size) + [sz]
    {
      filename := filename + [el];
      isdir := isdir + [dir];
      size := size + [sz];
      length := length + 1;
    }

    /** Pop: the top triple, and the slices without it. On an empty stack
        the index `length-1` is out of range: the caller checks IsEmpty. */
    method Pop() returns (el: string, dir: bool, sz: int)
      requires Valid() && length > 0
      modifies this
      ensures Valid() && length == old(length) - 1
      ensures el == old(filename)[old(length) - 1] && dir == old(isdir)[old(length) - 1]
      ensures sz == old(size)[old(length) - 1]
      ensures filename == old(filename)[..old(length) - 1]
      ensures isdir == old(isdir)[..old(length) - 1]
      ensures size == old(size)[..old(length) - 1]
    {
      el := filename[length - 1];
      filename := filename[..|filename| - 1];
      dir := isdir[length - 1];
      isdir := isdir[..|isdir| - 1];
      sz := size[length - 1];
      size := size[..|size| - 1];
      length := length - 1;
    }

    function IsEmpty(): (b: bool)
      reads this
      ensures b <==> length == 0
    {
      length == 0
    }

    /** The top entry is the marker of the parent directory. */
    function NextIsDotDot(): (b: bool)
      requires Valid() && length > 0
      reads this
      ensures b <==> filename[|filename| - 1] == ".."
    {
      filename[length - 1] == ".."
    }
  }

  /** A pop undoes a push: the pushed triple comes back and the slices are
      as before. */
  method PushPop(s: Stack, el: string, dir: bool, sz: int) returns (el': string, dir': bool, sz': int)
    requires s.Valid()
    modifies s
    ensures s.Valid()
    ensures el' == el && dir' == dir && sz' == sz
    ensures s.filename == old(s.filename) && s.isdir == old(s.isdir) && s.size == old(s.size)
    ensures s.length == old(s.length)
  {
    s.Push(el, dir, sz);
    el', dir', sz' := s.Pop();
  }

  // ---------------------------------------------------------------------
  // Ordering names

  /** Go's `<=` on strings; UTF-8 byte order agrees with character order. */
  predicate LessEq(a: string, b: string)
    decreases |a|
  {
    if |a| == 0 then true
    else if |b| == 0 then false
    else if a[0] != b[0] then a[0] < b[0]
    else LessEq(a[1..], b[1..])
  }

  lemma {:induction false} LessEqRefl(a: string)
    ensures LessEq(a, a)
    decreases |a|
  {
    if |a| > 0 {
      LessEqRefl(a[1..]);
    }
  }

  lemma {:induction false} LessEqTotal(a: string, b: string)
    ensures LessEq(a, b) || LessEq(b, a)
    decreases |a|
  {
    if |a| > 0 && |b| > 0 && a[0] == b[0] {
      LessEqTotal(a[1..], b[1..]);
    }
  }

  lemma {:induction false} LessEqTrans(a: string, b: string, c: string)
    requires LessEq(a, b) && LessEq(b, c)
    ensures LessEq(a, c)
    decreases |a|
  {
    if |a| > 0 && |b| > 0 && |c| > 0 && a[0] == b[0] && b[0] == c[0] {
      LessEqTrans(a[1..], b[1..], c[1..]);
    }
  }

  lemma {:induction false} LessEqAntisym(a: string, b: string)
    requires LessEq(a, b) && LessEq(b, a)
    ensures a == b
    decreases |a|
  {
    if |a| > 0 {
      LessEqAntisym(a[1..], b[1..]);
      assert a == [a[0]] + a[1..] && b == [b[0]] + b[1..];
    }
  }

  /** `sort.StringsAreSorted([]string{a, b})` */
  predicate PairSorted(a: string, b: string) {
    LessEq(a, b)
  }

  /** A directory entry as Readdir reports it. */
  datatype Entry = Entry(name: string, isDir: bool, size: int)

  /** Names in non-increasing order. */
  predicate NonIncreasing(s: seq<Entry>) {
    forall i, j :: 0 <= i < j < |s| ==> LessEq(s[j].name, s[i].name)
  }

  /** The nested swap loop of dirTree: an exchange sort that swaps
      neighbours whenever they are already in ascending order, so the
      listing ends up in non-increasing order of names. */
  method SortListing(names: array<Entry>)
    modifies names
    ensures NonIncreasing(names[..])
    ensures multiset(names[..]) == multiset(old(names[..]))
  {
    var n := names.Length;
    var i := 0;
    while i < n
      invariant 0 <= i <= n
      invariant multiset(names[..]) == multiset(old(names[..]))
      invariant SuffixSorted(names[..], n - i)
    {
      var j := 0;
      LessEqRefl(names[0].name);
      while j < n - i - 1
        invariant 0 <= j <= n - i - 1
        invariant multiset(names[..]) == multiset(old(names[..]))
        invariant SuffixSorted(names[..], n - i)
        invariant MinAt(names[..], j)
      {
        if PairSorted(names[j].name, names[j + 1].name) {
          SwapNeighbours(names, j, n - i);
        } else {
          NoSwapKeeps(names[..], j);
        }
        j := j + 1;
      }
      PassDone(names[..], n - i);
      i := i + 1;
    }
  }

  /** names[m..] is non-increasing and holds no name above one in names[..m]. */
  ghost predicate SuffixSorted(s: seq<Entry>, m: int) {
    0 <= m <= |s|
    && (forall p, q :: m <= p < q < |s| ==> LessEq(s[q].name, s[p].name))
    && (forall p, q :: 0 <= p < m <= q < |s| ==> LessEq(s[q].name, s[p].name))
  }

  /** s[j] has the least name of s[..j+1]. */
  ghost predicate MinAt(s: seq<Entry>, j: int) {
    0 <= j < |s| && forall k :: 0 <= k <= j ==> LessEq(s[j].name, s[k].name)
  }

  /** Without a swap the least name of s[..j+2] is at j+1. */
  lemma NoSwapKeeps(s: seq<Entry>, j: int)
    requires MinAt(s, j) && j + 1 < |s|
    requires !PairSorted(s[j].name, s[j + 1].name)
    ensures MinAt(s, j + 1)
  {
    LessEqTotal(s[j].name, s[j + 1].name);
    LessEqRefl(s[j + 1].name);
    forall k | 0 <= k <= j ensures LessEq(s[j + 1].name, s[k].name) {
      LessEqTrans(s[j + 1].name, s[j].name, s[k].name);
    }
  }

  /** A finished pass has brought the least name of s[..m] to m-1. */
  lemma PassDone(s: seq<Entry>, m: int)
    requires 1 <= m && SuffixSorted(s, m) && MinAt(s, m - 1)
    ensures SuffixSorted(s, m - 1)
  {
  }

  /** One swap of the inner loop: a[j] and a[j+1] exchange places, the
      smaller name moving right. */
  method SwapNeighbours(a: array<Entry>, j: int, m: int)
    requires 0 <= j && j + 1 < m <= a.Length
    requires SuffixSorted(a[..], m)
    requires MinAt(a[..], j)
    requires LessEq(a[j].name, a[j + 1].name)
    modifies a
    ensures a[..] == Swapped(old(a[..]), j)
    ensures multiset(a[..]) == multiset(old(a[..]))
    ensures SuffixSorted(a[..], m)
    ensures MinAt(a[..], j + 1)
  {
    ghost var s0 := a[..];
    a[j], a[j + 1] := a[j + 1], a[j];
    assert a[..] == Swapped(s0, j);
    SwappedPermutes(s0, j);
    SwappedKeeps(s0, j, m);
  }

  /** s with the neighbours at j and j+1 exchanged. */
  function Swapped(s: seq<Entry>, j: int): (r: seq<Entry>)
    requires 0 <= j && j + 1 < |s|
    ensures |r| == |s| && r[j] == s[j + 1] && r[j + 1] == s[j]
    ensures forall p :: 0 <= p < |s| && p != j && p != j + 1 ==> r[p] == s[p]
  {
    s[..j] + [s[j + 1], s[j]] + s[j + 2..]
  }

  /** An exchange keeps the elements. */
  lemma SwappedPermutes(s: seq<Entry>, j: int)
    requires 0 <= j && j + 1 < |s|
    ensures multiset(Swapped(s, j)) == multiset(s)
  {
    assert s == s[..j] + [s[j], s[j + 1]] + s[j + 2..];
    assert multiset([s[j], s[j + 1]]) == multiset([s[j + 1], s[j]]);
  }

  /** An exchange inside the unsorted prefix keeps the sorted
      suffix and its bound, and carries the minimum to j+1. */
  lemma SwappedKeeps(s: seq<Entry>, j: int, m: int)
    requires 0 <= j && j + 1 < m <= |s|
    requires SuffixSorted(s, m)
    requires MinAt(s, j)
    requires LessEq(s[j].name, s[j + 1].name)
    ensures SuffixSorted(Swapped(s, j), m)
    ensures MinAt(Swapped(s, j), j + 1)
  {
    var r := Swapped(s, j);
    forall p, q | 0 <= p < m <= q < |r| ensures LessEq(r[q].name, r[p].name) {
      if p == j { assert r[p] == s[j + 1]; }
      else if p == j + 1 { assert r[p] == s[j]; }
    }
    LessEqRefl(s[j].name);
  }

  // ---------------------------------------------------------------------
  // What is pushed

  /** Directories always, files only with printFiles, in listing order. */
  function Selected(names: seq<Entry>, printFiles: bool): seq<Entry>
    decreases |names|
  {
    if |names| == 0 then []
    else
      var init := Selected(names[..|names| - 1], printFiles);
      var last := names[|names| - 1];
      if last.isDir || printFiles then init + [last] else init
  }

  /** Exactly the directories, and the files when printFiles is set. */
  lemma {:induction false} SelectedMembers(names: seq<Entry>, printFiles: bool)
    ensures forall e :: e in Selected(names, printFiles) <==> e in names && (e.isDir || printFiles)
    decreases |names|
  {
    if |names| > 0 {
      var init := names[..|names| - 1];
      SelectedMembers(init, printFiles);
      assert names == init + [names[|names| - 1]];
    }
  }

  /** The push loop of dirTree: the selected entries go on the stack in
      listing order. */
  method PushListing(s: Stack, names: seq<Entry>, printFiles: bool)
    requires s.Valid()
    modifies s
    ensures s.Valid()
    ensures s.length == old(s.length) + |Selected(names, printFiles)|
    ensures s.filename == old(s.filename) + Names(Selected(names, printFiles))
    ensures s.isdir == old(s.isdir) + Kinds(Selected(names, printFiles))
    ensures s.size == old(s.size) + Sizes(Selected(names, printFiles))
  {
    var i := 0;
    while i < |names|
      invariant 0 <= i <= |names|
      invariant s.Valid()
      invariant s.length == old(s.length) + |Selected(names[..i], printFiles)|
      invariant s.filename == old(s.filename) + Names(Selected(names[..i], printFiles))
      invariant s.isdir == old(s.isdir) + Kinds(Selected(names[..i], printFiles))
      invariant s.size == old(s.size) + Sizes(Selected(names[..i], printFiles))
    {
      var file := names[i];
      ghost var before := Selected(names[..i], printFiles);
      assert names[..i + 1][..i] == names[..i];
      if file.isDir {
        s.Push(file.name, true, 0);
      } else if printFiles {
        s.Push(file.name, false, file.size);
      }
      i := i + 1;
    }
    assert names[..|names|] == names;
  }

  function Names(es: seq<Entry>): (r: seq<string>)
    ensures |r| == |es| && forall k :: 0 <= k < |es| ==> r[k] == es[k].name
  {
    seq(|es|, k requires 0 <= k < |es| => es[k].name)
  }

  function Kinds(es: seq<Entry>): (r: seq<bool>)
    ensures |r| == |es| && forall k :: 0 <= k < |es| ==> r[k] == es[k].isDir
  {
    seq(|es|, k requires 0 <= k < |es| => es[k].isDir)
  }

  /** The size pushed for an entry: 0 for a directory, its size for a file. */
  function Sizes(es: seq<Entry>): (r: seq<int>)
    ensures |r| == |es| && forall k :: 0 <= k < |es| ==> r[k] == (if es[k].isDir then 0 else es[k].size)
  {
    seq(|es|, k requires 0 <= k < |es| => if es[k].isDir then 0 else es[k].size)
  }

  /** Keeping some entries of a non-increasing listing keeps it
      non-increasing. */
  lemma {:induction false} SelectedNonIncreasing(names: seq<Entry>, printFiles: bool)
    requires NonIncreasing(names)
    ensures NonIncreasing(Selected(names, printFiles))
    decreases |names|
  {
    if |names| > 0 {
      var init := names[..|names| - 1];
      var last := names[|names| - 1];
      SelectedNonIncreasing(init, printFiles);
      var r := Selected(names, printFiles);
      var ri := Selected(init, printFiles);
      if last.isDir || printFiles {
        SelectedMembers(init, printFiles);
        forall i, j | 0 <= i < j < |r| ensures LessEq(r[j].name, r[i].name) {
          if j == |r| - 1 {
            assert r[i] in ri;
            var p :| 0 <= p < |init| && init[p] == r[i];
          }
        }
      }
    }
  }

  /** Popping a stack returns its entries top first. */
  function PopOrder<T>(s: seq<T>): (r: seq<T>)
    ensures |r| == |s| && forall k :: 0 <= k < |s| ==> r[k] == s[|s| - 1 - k]
  {
    seq(|s|, k requires 0 <= k < |s| => s[|s| - 1 - k])
  }

  /** So a sorted listing, once pushed, pops in ascending order of names. */
  lemma PopsAscending(names: seq<Entry>, printFiles: bool)
    requires NonIncreasing(names)
    ensures var pops := PopOrder(Selected(names, printFiles));
      forall i, j :: 0 <= i < j < |pops| ==> LessEq(pops[i].name, pops[j].name)
  {
    SelectedNonIncreasing(names, printFiles);
  }

  /** `n` calls of Pop: the names come back top first, and the slices lose
      their top `n` entries. */
  method PopNames(s: Stack, n: int) returns (popped: seq<string>)
    requires s.Valid() && 0 <= n <= s.length
    modifies s
    ensures s.Valid() && s.length == old(s.length) - n
    ensures s.filename == old(s.filename)[..old(s.length) - n]
    ensures s.isdir == old(s.isdir)[..old(s.length) - n]
    ensures s.size == old(s.size)[..old(s.length) - n]
    ensures popped == PopOrder(old(s.filename)[old(s.length) - n..])
  {
    ghost var f0, d0, z0, l0 := s.filename, s.isdir, s.size, s.length;
    popped := [];
    var i := 0;
    while i < n
      invariant 0 <= i <= n
      invariant s.Valid() && s.length == l0 - i
      invariant s.filename == f0[..l0 - i] && s.isdir == d0[..l0 - i] && s.size == z0[..l0 - i]
      invariant |popped| == i && forall k :: 0 <= k < i ==> popped[k] == f0[l0 - 1 - k]
    {
      var el, dir, sz := s.Pop();
      popped := popped + [el];
      i := i + 1;
    }
    assert popped == PopOrder(f0[l0 - n..]);
  }

  /** The pushes of a listing and as many pops after them: the pops return
      the selected names in reverse listing order, ascending when the
      listing was sorted, and leave the stack as it was. */
  method PushThenPop(s: Stack, names: seq<Entry>, printFiles: bool) returns (popped: seq<string>)
    requires s.Valid()
    modifies s
    ensures s.Valid() && s.length == old(s.length)
    ensures s.filename == old(s.filename) && s.isdir == old(s.isdir) && s.size == old(s.size)
    ensures popped == Names(PopOrder(Selected(names, printFiles)))
    ensures NonIncreasing(names) ==> forall i, j :: 0 <= i < j < |popped| ==> LessEq(popped[i], popped[j])
  {
    var sel := Selected(names, printFiles);
    ghost var f0, d0, z0, l0 := s.filename, s.isdir, s.size, s.length;
    PushListing(s, names, printFiles);
    popped := PopNames(s, |sel|);
    assert (f0 + Names(sel))[..l0] == f0;
    assert (d0 + Kinds(sel))[..l0] == d0;
    assert (z0 + Sizes(sel))[..l0] == z0;
    assert (f0 + Names(sel))[l0..] == Names(sel);
    assert popped == Names(PopOrder(sel));
    if NonIncreasing(names) {
      PopsAscending(names, printFiles);
    }
  }

  // ---------------------------------------------------------------------
  // Output text

  /** The indentation printLines writes for the first `count` levels. */
  function Indent(probels: seq<bool>): string
    decreases |probels|
  {
    if |probels| == 0 then ""
    else Indent(probels[..|probels| - 1]) + (if probels[|probels| - 1] then "│\t" else "\t")
  }

  function Branch(end: bool): string {
    if end then "└───" else "├───"
  }

  /** printLines: one "│\t" or "\t" per enclosing level, then the branch.
      probels[i] is read for every i < level-1: the caller keeps it long
      enough. */
  method PrintLines(level: int, probels: seq<bool>, end: bool) returns (out: string)
    requires level - 1 <= |probels|
    ensures out == Indent(probels[..if level - 1 < 0 then 0 else level - 1]) + Branch(end)
  {
    out := "";
    var i := 0;
    while i < level - 1
      invariant 0 <= i <= |probels|
      invariant i <= if level - 1 < 0 then 0 else level - 1
      invariant out == Indent(probels[..i])
    {
      assert probels[..i + 1][..i] == probels[..i];
      if probels[i] {
        out := out + "│\t";
      } else {
        out := out + "\t";
      }
      i := i + 1;
    }
    assert i == if level - 1 < 0 then 0 else level - 1;
    if end {
      out := out + "└───";
    } else {
      out := out + "├───";
    }
  }

  /** The indentation has one tab per level and one bar per marked level. */
  lemma {:induction false} IndentCounts(probels: seq<bool>)
    ensures Count(Indent(probels), '\t') == |probels|
    ensures Count(Indent(probels), '│') == |set k | 0 <= k < |probels| && probels[k]|
    decreases |probels|
  {
    if |probels| > 0 {
      var n := |probels| - 1;
      var init := probels[..n];
      IndentCounts(init);
      var piece := if probels[n] then "│\t" else "\t";
      assert Indent(probels) == Indent(init) + piece;
      CountAppend(Indent(init), piece, '\t');
      CountAppend(Indent(init), piece, '│');
      PieceCounts(probels[n]);
      MarkedSnoc(probels);
    }
  }

  /** One level's piece holds one tab, and a bar when the level is marked. */
  lemma PieceCounts(marked: bool)
    ensures var piece := if marked then "│\t" else "\t";
      Count(piece, '\t') == 1 && Count(piece, '│') == (if marked then 1 else 0)
  {
    assert Count("\t", '\t') == 1 && Count("\t", '│') == 0;
    assert ("│\t")[1..] == "\t";
  }

  /** The marked levels of a prefix grow by the last level when it is marked. */
  lemma MarkedSnoc(probels: seq<bool>)
    requires |probels| > 0
    ensures var n := |probels| - 1;
      |set k | 0 <= k < |probels| && probels[k]|
        == |set k | 0 <= k < n && probels[..n][k]| + (if probels[n] then 1 else 0)
  {
    var n := |probels| - 1;
    var marked := set k | 0 <= k < |probels| && probels[k];
    var markedInit := set k | 0 <= k < n && probels[..n][k];
    assert n !in markedInit;
    if probels[n] {
      assert marked == markedInit + {n};
    } else {
      assert marked == markedInit;
    }
  }

  /** The size label of a file: "(empty)" for size 0, "(<size>b)" otherwise. */
  function SizeLabel(size: int): string {
    if size == 0 then "(empty)" else "(" + Itoa(size) + "b)"
  }

  /** The label gives the size back. */
  lemma SizeLabelReads(size: int)
    requires InInt64(size)
    ensures size == 0 <==> SizeLabel(size) == "(empty)"
    ensures size != 0 ==> var l := SizeLabel(size);
              |l| >= 3 && l[0] == '(' && l[|l| - 2..] == "b)" && Atoi(l[1..|l| - 2]) == Some(size)
  {
    AtoiItoa(size);
    if size != 0 {
      var l := SizeLabel(size);
      assert l[1..|l| - 2] == Itoa(size);
    }
  }

  /** The line printed for a file. */
  function FileLine(filename: string, size: int): string {
    filename + " " + SizeLabel(size) + "\n"
  }

  /** A file's line reads "(empty)" exactly for size 0. */
  lemma FileLineLabel(filename: string, size: int)
    requires InInt64(size)
    ensures size == 0 <==> FileLine(filename, size) == filename + " (empty)\n"
  {
    SizeLabelReads(size);
    var line := FileLine(filename, size);
    var text := SizeLabel(size);
    assert line == filename + " " + text + "\n";
    if line == filename + " (empty)\n" {
      var n := |filename| + 1;
      assert |text| == |line| - n - 1 == 7;
      assert forall k :: 0 <= k < 7 ==> text[k] == line[n + k] == "(empty)"[k];
      assert text == "(empty)";
    }
  }
}
