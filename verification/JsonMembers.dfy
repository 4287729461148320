/** What the children of a text become: members sorted by key, the first of equal keys kept; elements in order, those
    without content dropped. */
module JsonMembers {
  import opened Json
  import opened JsonProofs
  import opened JsonLayout

  // ---------------------------------------------------------------- the order of keys

  lemma {:induction false} LessTotal(a: string, b: string)
    ensures a == b || Less(a, b) || Less(b, a)
    decreases |a|
  {
    if a != "" && b != "" && a[0] == b[0] {
      LessTotal(a[1..], b[1..]);
      assert a == [a[0]] + a[1..] && b == [b[0]] + b[1..];
    }
  }

  lemma {:induction false} LessTransitive(a: string, b: string, c: string)
    requires Less(a, b) && Less(b, c)
    ensures Less(a, c)
    decreases |a|
  {
    if a != "" && a[0] == b[0] == c[0] { LessTransitive(a[1..], b[1..], c[1..]); }
  }

  predicate Sorted(kv: seq<Node>) { forall i, j :: 0 <= i < j < |kv| ==> Less(kv[i].key, kv[j].key) }

  predicate HasKey(kv: seq<Node>, key: string) { exists x <- kv :: x.key == key }

  /** A key that is present keeps its node; a new one comes in its place. */
  lemma {:induction false} EmplaceIff(kv: seq<Node>, n: Node)
    requires Sorted(kv)
    ensures Sorted(Emplace(kv, n))
    ensures forall x :: x in Emplace(kv, n) <==> x in kv || (x == n && !HasKey(kv, n.key))
    decreases |kv|
  {
    if kv != [] {
      var rest := kv[1..];
      assert kv == [kv[0]] + rest;
      LessTotal(kv[0].key, n.key);
      if kv[0].key == n.key {
        assert kv[0] in kv;
      } else if Less(n.key, kv[0].key) {
        BelowAll(kv, n);
      } else {
        EmplaceIff(rest, n);
        FirstStays(kv, n);
      }
    }
  }

  lemma BelowAll(kv: seq<Node>, n: Node)
    requires kv != [] && Sorted(kv) && Less(n.key, kv[0].key)
    ensures Sorted([n] + kv) && !HasKey(kv, n.key)
  {
    forall i | 0 <= i < |kv| ensures Less(n.key, kv[i].key) && kv[i].key != n.key {
      if i > 0 { LessTransitive(n.key, kv[0].key, kv[i].key); }
      LessIsStrict(n.key, kv[i].key);
    }
    hide Less;
  }

  lemma FirstStays(kv: seq<Node>, n: Node)
    requires kv != [] && Sorted(kv) && Less(kv[0].key, n.key) && Sorted(Emplace(kv[1..], n))
    requires forall x :: x in Emplace(kv[1..], n) <==> x in kv[1..] || (x == n && !HasKey(kv[1..], n.key))
    ensures Sorted([kv[0]] + Emplace(kv[1..], n)) && (HasKey(kv, n.key) <==> HasKey(kv[1..], n.key))
  {
    var rest := Emplace(kv[1..], n);
    LessIsStrict(kv[0].key, n.key);
    hide Less, Emplace;
    assert kv == [kv[0]] + kv[1..];
    forall i | 0 <= i < |rest| ensures Less(kv[0].key, rest[i].key) {
      assert rest[i] in rest;
      if rest[i] in kv[1..] {
        var j :| 0 <= j < |kv[1..]| && kv[1..][j] == rest[i];
        assert kv[j + 1] == rest[i];
      }
    }
  }

  // ---------------------------------------------------------------- objects and arrays

  predicate AllNamed(ps: seq<Part>) { forall i :: 0 <= i < |ps| ==> KeyOf(ps[i].name) != "" }

  predicate FirstOf(ps: seq<Part>, j: nat) {
    j < |ps| && forall h :: 0 <= h < j ==> KeyOf(ps[h].name) != KeyOf(ps[j].name)
  }

  /** Sorted by key, and exactly the first ones of their keys among the first `i` parts. */
  predicate MembersOf(kv: seq<Node>, ps: seq<Part>, i: nat)
    requires i <= |ps|
  {
    && Sorted(kv)
    && (forall j :: 0 <= j < i && FirstOf(ps, j) ==> PartTree(ps[j]) in kv)
    && (forall x <- kv :: exists j :: 0 <= j < i && FirstOf(ps, j) && x == PartTree(ps[j]))
  }

  lemma {:induction false} CollectedKeepsKey(node: Node, ps: seq<Part>, i: nat)
    requires i <= |ps|
    ensures Collected(node, ps, i).key == node.key
    decreases i
  {
    hide Emplace, PartTree, HasContent;
    if i > 0 { CollectedKeepsKey(node, ps, i - 1); }
  }

  lemma TreeKey(p: Part)
    ensures PartTree(p).key == KeyOf(p.name)
  {
    if Container(p.value) {
      TreeIs(p.value, KeyOf(p.name));
      CollectedKeepsKey(Empty(p.value, KeyOf(p.name)), Parts(p.value), |Parts(p.value)|);
    }
    hide Collected;
  }

  lemma {:induction false} FirstWithKey(ps: seq<Part>, h: nat) returns (g: nat)
    requires h < |ps|
    ensures g <= h && FirstOf(ps, g) && KeyOf(ps[g].name) == KeyOf(ps[h].name)
    decreases h
  {
    if f :| 0 <= f < h && KeyOf(ps[f].name) == KeyOf(ps[h].name) {
      g := FirstWithKey(ps, f);
    } else {
      g := h;
    }
  }

  lemma PresentIff(kv: seq<Node>, ps: seq<Part>, i: nat)
    requires i < |ps| && MembersOf(kv, ps, i)
    ensures HasKey(kv, KeyOf(ps[i].name)) <==> !FirstOf(ps, i)
  {
    hide PartTree, Sorted;
    if HasKey(kv, KeyOf(ps[i].name)) {
      var x :| x in kv && x.key == KeyOf(ps[i].name);
      var j :| 0 <= j < i && FirstOf(ps, j) && x == PartTree(ps[j]);
      TreeKey(ps[j]);
    }
    if !FirstOf(ps, i) {
      var h :| 0 <= h < i && KeyOf(ps[h].name) == KeyOf(ps[i].name);
      var g := FirstWithKey(ps, h);
      TreeKey(ps[g]);
    }
  }

  lemma MemberAdded(kv: seq<Node>, ps: seq<Part>, i: nat)
    requires i < |ps| && MembersOf(kv, ps, i)
    ensures MembersOf(Emplace(kv, PartTree(ps[i])), ps, i + 1)
  {
    TreeKey(ps[i]);
    PresentIff(kv, ps, i);
    hide PartTree, HasKey;
    var kv' := Emplace(kv, PartTree(ps[i]));
    EmplaceIff(kv, PartTree(ps[i]));
    hide Sorted, Emplace, FirstOf;
    forall x | x in kv' ensures exists j :: 0 <= j < i + 1 && FirstOf(ps, j) && x == PartTree(ps[j]) {
      if x in kv {
        var j :| 0 <= j < i && FirstOf(ps, j) && x == PartTree(ps[j]);
      }
    }
  }

  lemma AttachNamed(node: Node, child: Node)
    requires child.key != ""
    ensures Attach(node, child).kv == Emplace(node.kv, child) && Attach(node, child).arr == node.arr
  {
    hide Emplace;
  }

  lemma NoMembers(node: Node, ps: seq<Part>)
    requires node.kv == []
    ensures Collected(node, ps, 0) == node && MembersOf(node.kv, ps, 0)
  {
  }

  lemma NamedAt(ps: seq<Part>, i: nat)
    requires AllNamed(ps) && i < |ps|
    ensures KeyOf(ps[i].name) != ""
  {
  }

  lemma {:induction false} MembersAre(node: Node, ps: seq<Part>, i: nat)
    requires i <= |ps| && AllNamed(ps) && node.kv == []
    ensures MembersOf(Collected(node, ps, i).kv, ps, i) && Collected(node, ps, i).arr == node.arr
    decreases i
  {
    hide MembersOf, Emplace, PartTree, Collected, Attach, AllNamed;
    if i == 0 {
      NoMembers(node, ps);
    } else {
      NamedAt(ps, i - 1);
      MembersAre(node, ps, i - 1);
      TreeKey(ps[i - 1]);
      CollectedNext(node, ps, i - 1);
      AttachNamed(Collected(node, ps, i - 1), PartTree(ps[i - 1]));
      MemberAdded(Collected(node, ps, i - 1).kv, ps, i - 1);
    }
  }

  /** What the text of an object gives: its members sorted by key, and of several with one key the first. */
  lemma ObjectMembers(l: Layout, key: string)
    requires l.LObject? && Written(l)
    ensures MembersOf(Tree(l, key).kv, l.members, |l.members|) && Tree(l, key).arr == []
  {
    assert AllNamed(l.members) by { hide NameOk; NamesAreKeys(l); }
    hide MembersOf, Collected, AllNamed;
    MembersAre(BLANK.(key := key), l.members, |l.members|);
  }

  lemma NamesAreKeys(l: Layout)
    requires l.LObject? && Written(l)
    ensures AllNamed(l.members)
  {
    forall i | 0 <= i < |l.members| ensures KeyOf(l.members[i].name) != "" {
      assert PartOk(l.members[i]) && l.members[i].name.Named?;
    }
  }

  /** The elements with content, in order. */
  function Kept(ps: seq<Part>, i: nat): seq<Node>
    requires i <= |ps|
  {
    if i == 0 then []
    else Kept(ps, i - 1) + (if HasContent(PartTree(ps[i - 1])) then [PartTree(ps[i - 1])] else [])
  }

  lemma {:induction false} ElementsAre(node: Node, ps: seq<Part>, i: nat)
    requires i <= |ps| && (forall j :: 0 <= j < |ps| ==> ps[j].name.NoName?) && node.arr == []
    ensures Collected(node, ps, i).arr == Kept(ps, i) && Collected(node, ps, i).kv == node.kv
    decreases i
  {
    if i > 0 {
      ElementsAre(node, ps, i - 1);
      TreeKey(ps[i - 1]);
      hide PartTree, HasContent, Emplace;
    }
  }

  /** What the text of an array gives: its elements in order, the empty strings, objects and arrays left out. */
  lemma ArrayElements(l: Layout, key: string)
    requires l.LArray? && Written(l)
    ensures Tree(l, key).arr == Kept(l.elements, |l.elements|) && Tree(l, key).kv == []
  {
    hide PartOk, Kept;
    ElementsAre(BLANK.(key := key, typ := TArray), l.elements, |l.elements|);
  }
}
