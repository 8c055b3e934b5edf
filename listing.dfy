/**
 * The directory listing printed at start-up: every entry of a directory tree,
 * one line each, in the order the driver hands them out, with a directory's
 * contents right after its own line and one tab deeper. The tree is a value;
 * the lines are what goes to the serial port.
 */
module Listing {
  import Numerals

  datatype Entry = File(name: string, size: nat) | Dir(name: string, entries: seq<Entry>)

  function Tabs(n: nat): (s: string)
    ensures |s| == n && forall i :: 0 <= i < n ==> s[i] == '\t'
  {
    seq(n, _ => '\t')
  }

  /** The line for one entry: a directory's name ends in `/`, a file's name is followed by two tabs and its size in decimal. */
  function EntryLine(e: Entry, numTabs: nat): string {
    match e
    case File(name, size) => Tabs(numTabs) + name + "\t\t" + Numerals.Digits(size)
    case Dir(name, _) => Tabs(numTabs) + name + "/"
  }

  /** An entry's line, field by field: its tabs, its name, then `/` or two tabs and the file's size as a decimal numeral. */
  lemma EntryLineShape(e: Entry, numTabs: nat)
    ensures |EntryLine(e, numTabs)| > numTabs + |e.name|
    ensures EntryLine(e, numTabs)[..numTabs] == Tabs(numTabs)
    ensures EntryLine(e, numTabs)[numTabs..numTabs + |e.name|] == e.name
    ensures e.Dir? ==> EntryLine(e, numTabs)[numTabs + |e.name|..] == "/"
    ensures e.File? ==> |EntryLine(e, numTabs)| > numTabs + |e.name| + 2
    ensures e.File? ==> EntryLine(e, numTabs)[numTabs + |e.name|..numTabs + |e.name| + 2] == "\t\t"
    ensures e.File? ==> Numerals.AllDigits(EntryLine(e, numTabs)[numTabs + |e.name| + 2..])
    ensures e.File? ==> Numerals.ValueOf(EntryLine(e, numTabs)[numTabs + |e.name| + 2..]) == e.size
  {
    var line := EntryLine(e, numTabs);
    if e.File? {
      Numerals.ValueOfDigits(e.size);
      assert line[numTabs + |e.name| + 2..] == Numerals.Digits(e.size);
    }
  }

  /** The listing of a directory whose entries are `es`, printed at `numTabs`. */
  function DirLines(es: seq<Entry>, numTabs: nat): seq<string>
    decreases es
  {
    if es == [] then [] else EntryLines(es[0], numTabs) + DirLines(es[1..], numTabs)
  }

  /** The lines of one entry: its own line, then, for a directory, its contents one tab deeper. */
  function EntryLines(e: Entry, numTabs: nat): seq<string>
    decreases e
  {
    [EntryLine(e, numTabs)] + (if e.Dir? then DirLines(e.entries, numTabs + 1) else [])
  }

  /** An entry met in the walk, with its nesting depth. */
  datatype Visit = Visit(entry: Entry, depth: nat)

  /** Reference walk: every entry of the tree in pre-order, each with its depth. */
  function PreOrder(es: seq<Entry>, depth: nat): seq<Visit>
    decreases es
  {
    if es == [] then []
    else
      var e := es[0];
      [Visit(e, depth)] + (if e.Dir? then PreOrder(e.entries, depth + 1) else []) + PreOrder(es[1..], depth)
  }

  /** The number of entries in the tree, directories and files alike. */
  function CountEntries(es: seq<Entry>): nat
    decreases es
  {
    if es == [] then 0
    else 1 + (if es[0].Dir? then CountEntries(es[0].entries) else 0) + CountEntries(es[1..])
  }

  /** Each visit rendered as its line, at its own depth. */
  function RenderVisits(vs: seq<Visit>): (lines: seq<string>)
    ensures |lines| == |vs|
  {
    if vs == [] then [] else [EntryLine(vs[0].entry, vs[0].depth)] + RenderVisits(vs[1..])
  }

  lemma {:induction false} RenderVisitsAppend(a: seq<Visit>, b: seq<Visit>)
    ensures RenderVisits(a + b) == RenderVisits(a) + RenderVisits(b)
  {
    if a != [] {
      assert (a + b)[1..] == a[1..] + b;
      RenderVisitsAppend(a[1..], b);
    } else {
      assert a + b == b;
    }
  }

  lemma {:induction false} RenderVisitsAt(vs: seq<Visit>, i: nat)
    requires i < |vs|
    ensures RenderVisits(vs)[i] == EntryLine(vs[i].entry, vs[i].depth)
  {
    if i > 0 {
      RenderVisitsAt(vs[1..], i - 1);
    }
  }

  /** The listing is the pre-order walk rendered line by line. */
  lemma {:induction false} ListingIsPreOrder(es: seq<Entry>, numTabs: nat)
    ensures DirLines(es, numTabs) == RenderVisits(PreOrder(es, numTabs))
    decreases es
  {
    if es != [] {
      var e := es[0];
      var subVisits := if e.Dir? then PreOrder(e.entries, numTabs + 1) else [];
      if e.Dir? {
        ListingIsPreOrder(e.entries, numTabs + 1);
      }
      ListingIsPreOrder(es[1..], numTabs);
      RenderVisitsAppend([Visit(e, numTabs)] + subVisits, PreOrder(es[1..], numTabs));
      RenderVisitsAppend([Visit(e, numTabs)], subVisits);
      assert RenderVisits([Visit(e, numTabs)]) == [EntryLine(e, numTabs)];
    }
  }

  /**
   * Line i of the listing is the line of the i-th entry the pre-order walk
   * meets, indented by `numTabs` plus that entry's nesting depth.
   */
  lemma ListingLineAt(es: seq<Entry>, numTabs: nat, i: nat)
    requires i < |PreOrder(es, numTabs)|
    ensures i < |DirLines(es, numTabs)|
    ensures DirLines(es, numTabs)[i] == EntryLine(PreOrder(es, numTabs)[i].entry, PreOrder(es, numTabs)[i].depth)
  {
    ListingIsPreOrder(es, numTabs);
    RenderVisitsAt(PreOrder(es, numTabs), i);
  }

  /** The walk meets each entry once: as many visits as entries. */
  lemma {:induction false} PreOrderCountsEntries(es: seq<Entry>, depth: nat)
    ensures |PreOrder(es, depth)| == CountEntries(es)
    decreases es
  {
    if es != [] {
      if es[0].Dir? {
        PreOrderCountsEntries(es[0].entries, depth + 1);
      }
      PreOrderCountsEntries(es[1..], depth);
    }
  }

  /** Every visit is at least as deep as the directory listed, so every line has at least `numTabs` tabs. */
  lemma {:induction false} PreOrderDepthAtLeast(es: seq<Entry>, depth: nat)
    ensures forall v :: v in PreOrder(es, depth) ==> v.depth >= depth
    decreases es
  {
    if es != [] {
      if es[0].Dir? {
        PreOrderDepthAtLeast(es[0].entries, depth + 1);
      }
      PreOrderDepthAtLeast(es[1..], depth);
    }
  }

  /** A directory's contents come right after its own line, one level deeper. */
  lemma DirectoryContentsOneDeeper(es: seq<Entry>, depth: nat)
    requires es != [] && es[0].Dir? && es[0].entries != []
    ensures |PreOrder(es, depth)| > 1
    ensures PreOrder(es, depth)[0] == Visit(es[0], depth)
    ensures PreOrder(es, depth)[1] == Visit(es[0].entries[0], depth + 1)
  {
    var inner := es[0].entries;
    assert PreOrder(inner, depth + 1)[0] == Visit(inner[0], depth + 1);
  }

  /** The listing has one line per entry of the tree. */
  lemma ListingCountsEntries(es: seq<Entry>, numTabs: nat)
    ensures |DirLines(es, numTabs)| == CountEntries(es)
  {
    ListingIsPreOrder(es, numTabs);
    PreOrderCountsEntries(es, numTabs);
  }

  lemma {:induction false} DirLinesAppend(es: seq<Entry>, e: Entry, numTabs: nat)
    ensures DirLines(es + [e], numTabs) == DirLines(es, numTabs) + EntryLines(e, numTabs)
  {
    if es == [] {
      assert es + [e] == [e];
      assert [e][1..] == [];
    } else {
      assert (es + [e])[1..] == es[1..] + [e];
      DirLinesAppend(es[1..], e, numTabs);
    }
  }

  /**
   * `printDirectory`: takes the directory's entries one at a time, prints the
   * tabs, the name, then either `/` and the directory's own listing one tab
   * deeper, or two tabs and the size.
   */
  method PrintDirectory(dir: seq<Entry>, numTabs: nat) returns (out: seq<string>)
    ensures out == DirLines(dir, numTabs)
    decreases dir
  {
    out := [];
    var i := 0;
    while i < |dir|
      invariant 0 <= i <= |dir|
      invariant out == DirLines(dir[..i], numTabs)
    {
      var entry := dir[i];
      var line := "";
      var t := 0;
      while t < numTabs
        invariant 0 <= t <= numTabs
        invariant line == Tabs(t)
      {
        line := line + "\t";
        t := t + 1;
      }
      line := line + entry.name;
      var lines;
      if entry.Dir? {
        assert entry in dir;
        var sub := PrintDirectory(entry.entries, numTabs + 1);
        lines := [line + "/"] + sub;
      } else {
        lines := [line + "\t\t" + Numerals.Digits(entry.size)];
      }
      DirLinesAppend(dir[..i], entry, numTabs);
      assert dir[..i + 1] == dir[..i] + [entry];
      out := out + lines;
      i := i + 1;
    }
    assert dir[..|dir|] == dir;
  }
}
