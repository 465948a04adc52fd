/** Path names as their non-slash segments, and looking them up as a fold. */
module PathSpec {
  import opened NameSpec

  const DIRSIZ: nat := 14

  /** The pieces between slashes, empty ones included. */
  function Split(p: string): (r: seq<string>)
    ensures |r| > 0
  {
    if p == "" then [""]
    else
      var r := Split(p[1..]);
      if p[0] == '/' then [""] + r else [[p[0]] + r[0]] + r[1..]
  }

  function Join(r: seq<string>): (p: string)
    requires |r| > 0
  {
    if |r| == 1 then r[0] else r[0] + "/" + Join(r[1..])
  }

  /** Splitting loses nothing, and no piece has a slash in it. */
  lemma {:induction false} SplitJoin(p: string)
    ensures Join(Split(p)) == p
    ensures forall i :: 0 <= i < |Split(p)| ==> '/' !in Split(p)[i]
  {
    if p != "" {
      SplitJoin(p[1..]);
      var r := Split(p[1..]);
      if p[0] == '/' {
        assert Split(p)[1..] == r;
      } else {
        assert Split(p)[1..] == r[1..];
        assert p == [p[0]] + p[1..];
      }
    }
  }

  function NonEmpty(r: seq<string>): (s: seq<string>) {
    if r == [] then [] else (if r[0] == "" then [] else [r[0]]) + NonEmpty(r[1..])
  }

  /** The maximal non-slash segments of a path. */
  function Segments(p: string): (r: seq<string>) { NonEmpty(Split(p)) }

  /** Names are cut to DIRSIZ - 1 characters. */
  function Cut(s: string): (n: Name) { if |s| >= DIRSIZ then s[..DIRSIZ - 1] else s }

  function CutAll(r: seq<string>): (s: seq<Name>)
    ensures |s| == |r| && forall i :: 0 <= i < |r| ==> s[i] == Cut(r[i])
  {
    seq(|r|, i requires 0 <= i < |r| => Cut(r[i]))
  }

  /** The names that a path asks for. */
  function Elems(p: string): (r: seq<Name>) { CutAll(Segments(p)) }

  lemma SlashSegments(p: string)
    requires p != "" && p[0] == '/'
    ensures Segments(p) == Segments(p[1..])
  {
    var r := Split(p[1..]);
    assert Split(p)[1..] == r;
  }

  /** A path that starts with `a`, which has no slash, and then ends or goes on with a slash. */
  lemma {:induction false} FirstSegment(a: string, q: string)
    requires '/' !in a && (q == "" || q[0] == '/')
    ensures Split(a + q) == [a] + Split(q)[1..]
    decreases |a|
  {
    if a == "" {
      assert a + q == q;
    } else {
      FirstSegment(a[1..], q);
      assert (a + q)[1..] == a[1..] + q && a == [a[0]] + a[1..];
      assert (a + q)[0] == a[0] && a[0] in a;
    }
  }

  lemma NonEmptyCons(x: string, r: seq<string>)
    ensures NonEmpty([x] + r) == (if x == "" then [] else [x]) + NonEmpty(r)
  {
    assert ([x] + r)[1..] == r;
  }

  lemma HeadSegment(a: string, q: string)
    requires a != "" && '/' !in a && (q == "" || q[0] == '/')
    ensures Segments(a + q) == [a] + Segments(q)
  {
    hide Split, NonEmpty;
    FirstSegment(a, q);
    SplitHead(q);
    var r := Split(q)[1..];
    NonEmptyCons("", r);
    NonEmptyCons(a, r);
    assert [] + NonEmpty(r) == NonEmpty(r);
  }

  lemma SplitHead(q: string)
    requires q == "" || q[0] == '/'
    ensures Split(q) == [""] + Split(q)[1..]
  {
  }

  lemma EmptySegments()
    ensures Segments("") == []
  {
    assert Split("")[1..] == [];
  }

  lemma SegmentsNonEmpty(p: string)
    requires p != "" && p[0] != '/'
    ensures Segments(p) != []
  {
    assert Split(p)[0] != "";
  }

  // ---- how a path is spelled ----

  /** Segments with slashes around them: `gaps[0]`, `segs[0]`, `gaps[1]`, and so on to the last gap. */
  function Spell(gaps: seq<string>, segs: seq<string>): (p: string)
    requires |gaps| == |segs| + 1
  {
    if segs == [] then gaps[0] else gaps[0] + (segs[0] + Spell(gaps[1..], segs[1..]))
  }

  ghost predicate Slashes(s: string) { forall i :: 0 <= i < |s| ==> s[i] == '/' }

  /** Gaps are slashes, at least one between two segments, and segments are not empty and have no slash. */
  ghost predicate Spelling(gaps: seq<string>, segs: seq<string>) {
    && |gaps| == |segs| + 1
    && (forall i :: 0 <= i < |gaps| ==> Slashes(gaps[i]))
    && (forall i :: 0 < i < |segs| ==> gaps[i] != "")
    && (forall i :: 0 <= i < |segs| ==> segs[i] != "" && '/' !in segs[i])
  }

  lemma {:induction false} GapSegments(gap: string, p: string)
    requires Slashes(gap)
    ensures Segments(gap + p) == Segments(p)
    decreases |gap|
  {
    hide Segments;
    if gap == "" {
      assert gap + p == p;
    } else {
      SlashSegments(gap + p);
      assert (gap + p)[1..] == gap[1..] + p;
      GapSegments(gap[1..], p);
    }
  }

  lemma {:induction false} SpelledSegments(gaps: seq<string>, segs: seq<string>)
    requires Spelling(gaps, segs)
    ensures Segments(Spell(gaps, segs)) == segs
    decreases |segs|
  {
    hide Segments;
    EmptySegments();
    if segs == [] {
      GapSegments(gaps[0], "");
      assert gaps[0] + "" == gaps[0];
    } else {
      SpelledSegments(gaps[1..], segs[1..]);
      var q := Spell(gaps[1..], segs[1..]);
      assert q == "" || q[0] == '/' by {
        assert gaps[1..][0] == gaps[1] && Slashes(gaps[1]);
      }
      HeadSegment(segs[0], q);
      GapSegments(gaps[0], segs[0] + q);
      assert [segs[0]] + segs[1..] == segs;
    }
  }

  /** A spelled path asks for the first thirteen characters, or fewer, of each segment in turn. */
  lemma SpelledElems(gaps: seq<string>, segs: seq<string>)
    requires Spelling(gaps, segs)
    ensures var r := Elems(Spell(gaps, segs));
            |r| == |segs| && forall i :: 0 <= i < |segs| ==> r[i] == if |segs[i]| <= 13 then segs[i] else segs[i][..13]
  {
    hide Segments;
    SpelledSegments(gaps, segs);
  }

  /** Every path has a spelling. */
  lemma {:induction false} SpellingOf(p: string) returns (gaps: seq<string>, segs: seq<string>)
    ensures Spelling(gaps, segs) && Spell(gaps, segs) == p
  {
    if p == "" {
      return [""], [];
    }
    var g, s := SpellingOf(p[1..]);
    var c := [p[0]];
    assert p == c + Spell(g, s);
    if p[0] == '/' {
      gaps, segs := [c + g[0]] + g[1..], s;
      assert Slashes(g[0]) && gaps[1..] == g[1..];
      if s == [] {
        assert Spell(gaps, segs) == p;
      } else {
        var q := s[0] + Spell(g[1..], s[1..]);
        assert c + g[0] + q == c + (g[0] + q);
      }
    } else if g[0] == "" && s != [] {
      gaps, segs := g, [c + s[0]] + s[1..];
      var q := Spell(g[1..], s[1..]);
      assert segs[1..] == s[1..];
      assert "" + (c + s[0] + q) == c + ("" + (s[0] + q));
    } else {
      gaps, segs := [""] + g, [c] + s;
      assert gaps[1..] == g && segs[1..] == s;
      assert "" + (c + Spell(g, s)) == c + Spell(g, s);
    }
  }

  // ---- looking up ----

  /** What a walk comes to.  Stop: an inode without a type was locked, which halts the kernel. */
  datatype Walk = Found(i: nat) | NotFound | Stop

  ghost function Down(nodes: seq<Node>, i: nat, name: Name): (w: Walk) {
    if !Used(nodes, i) then Stop
    else if nodes[i].kind != Dir then NotFound
    else if name in Entries(nodes[i].ents) then Found(Entries(nodes[i].ents)[name])
    else NotFound
  }

  /** Down all the names in turn. */
  ghost function Fold(nodes: seq<Node>, i: nat, names: seq<Name>): (w: Walk)
    decreases |names|
  {
    if names == [] then Found(i)
    else
      var w := Down(nodes, i, names[0]);
      if w.Found? then Fold(nodes, w.i, names[1..]) else w
  }

  /** The inode of a path, and the directory that holds its last name. */
  ghost function Namei(nodes: seq<Node>, from: nat, names: seq<Name>): (w: Walk) { Fold(nodes, from, names) }

  ghost function Parent(nodes: seq<Node>, from: nat, names: seq<Name>): (w: Walk) {
    if names == [] then NotFound
    else
      var w := Fold(nodes, from, names[..|names| - 1]);
      if !w.Found? then w
      else if !Used(nodes, w.i) then Stop
      else if nodes[w.i].kind != Dir then NotFound
      else w
  }

  lemma ParentStep(nodes: seq<Node>, i: nat, names: seq<Name>)
    requires |names| > 1
    ensures var w := Down(nodes, i, names[0]);
            Parent(nodes, i, names) == if w.Found? then Parent(nodes, w.i, names[1..]) else w
  {
    var init := names[..|names| - 1];
    assert init[0] == names[0] && init[1..] == names[1..][..|names| - 2];
  }

  /** Finding a path is finding its directory and then its last name there. */
  lemma {:induction false} NameiParent(nodes: seq<Node>, i: nat, names: seq<Name>)
    requires names != []
    ensures var w := Parent(nodes, i, names);
            Namei(nodes, i, names) == if w.Found? then Down(nodes, w.i, names[|names| - 1]) else w
    decreases |names|
  {
    if |names| > 1 {
      ParentStep(nodes, i, names);
      var w := Down(nodes, i, names[0]);
      if w.Found? {
        NameiParent(nodes, w.i, names[1..]);
      }
    } else {
      assert names[..0] == [] && names[1..] == [];
      var w := Down(nodes, i, names[0]);
      assert w.Found? ==> Fold(nodes, w.i, names[1..]) == w;
    }
  }
}
