/** `split` and `replace_all` of Include/util/string.hpp. */
module Text {
  import opened Buffers
  import opened Strings
  import opened Wrappers

  /** The pieces between the separators, taken from the left. */
  function Pieces(s: string, t: string): (ps: seq<string>)
    requires t != ""
    ensures ps != []
    decreases |s|
  {
    match Find(s, 0, t)
    case None => [s]
    case Some(e) => [s[..e]] + Pieces(s[e + |t|..], t)
  }

  function JoinBy(ps: seq<string>, t: string): string
    requires ps != []
  {
    if |ps| == 1 then ps[0] else ps[0] + t + JoinBy(ps[1..], t)
  }

  ghost predicate Contains(s: string, t: string) { exists k: nat :: At(s, k, t) }

  /** Every separator is the first one met behind the one before. */
  ghost predicate Leftmost(ps: seq<string>, t: string) {
    && ps != []
    && (forall i :: 0 <= i < |ps| - 1 ==> Find(ps[i] + t, 0, t) == Some(|ps[i]|))
    && !Contains(ps[|ps| - 1], t)
  }

  // ---------------------------------------------------------------- splitting

  lemma AtSuffix(s: string, p: nat, k: nat, t: string)
    requires p <= |s|
    ensures At(s[p..], k, t) <==> At(s, p + k, t)
  {
    if p + k + |t| <= |s| { assert s[p..][k..k + |t|] == s[p + k..p + k + |t|]; }
  }

  /** The search only depends on the text from its start on. */
  lemma FindInSuffix(s: string, p: nat, t: string)
    requires p <= |s|
    ensures Find(s, p, t) ==
      match Find(s[p..], 0, t)
      case None => None
      case Some(e) => Some(p + e)
  {
    hide Find, At;
    var f, g := Find(s, p, t), Find(s[p..], 0, t);
    if f.Some? {
      AtSuffix(s, p, f.value - p, t);
      if g.Some? && g.value < f.value - p { AtSuffix(s, p, g.value, t); }
    } else if g.Some? {
      AtSuffix(s, p, g.value, t);
    }
  }

  lemma FirstPiece(x: string, t: string, rest: string)
    requires t != ""
    ensures Find(x + t, 0, t) == Some(|x|) <==> Find(x + t + rest, 0, t) == Some(|x|)
  {
    var a, b := x + t, x + t + rest;
    forall k: nat | k <= |x| ensures At(a, k, t) <==> At(b, k, t) {
      assert a[k..k + |t|] == b[k..k + |t|];
    }
    assert a[|x|..|x| + |t|] == t;
    assert At(a, |x|, t) && At(b, |x|, t);
  }

  lemma OnePiece(s: string, t: string)
    requires t != ""
    ensures Find(s, 0, t) == None ==> Pieces(s, t) == [s]
    ensures Find(s, 0, t).Some? ==>
      var e := Find(s, 0, t).value; Pieces(s, t) == [s[..e]] + Pieces(s[e + |t|..], t)
  {
  }

  lemma LeftmostBehind(x: string, qs: seq<string>, t: string)
    requires Leftmost(qs, t) && Find(x + t, 0, t) == Some(|x|)
    ensures Leftmost([x] + qs, t) && JoinBy([x] + qs, t) == x + t + JoinBy(qs, t)
  {
    hide Find, Contains;
    var ps := [x] + qs;
    assert ps[|ps| - 1] == qs[|qs| - 1] && ps[1..] == qs;
    forall i | 0 <= i < |ps| - 1 ensures Find(ps[i] + t, 0, t) == Some(|ps[i]|) {
      if i > 0 { assert ps[i] == qs[i - 1]; }
    }
  }

  /** Splitting and joining again gives the text back; the pieces are the leftmost ones. */
  lemma {:induction false} PiecesJoin(s: string, t: string)
    requires t != ""
    ensures JoinBy(Pieces(s, t), t) == s && Leftmost(Pieces(s, t), t)
    decreases |s|
  {
    hide Find, Pieces;
    OnePiece(s, t);
    var f := Find(s, 0, t);
    if f.Some? {
      hide At, Leftmost, JoinBy;
      var x, rest := s[..f.value], s[f.value + |t|..];
      assert s == x + t + rest by { Cut(s, f.value, t); }
      PiecesJoin(rest, t);
      FirstPiece(x, t, rest);
      LeftmostBehind(x, Pieces(rest, t), t);
    }
  }

  lemma Cut(s: string, e: nat, t: string)
    requires At(s, e, t)
    ensures s == s[..e] + t + s[e + |t|..]
  {
  }

  lemma LeftmostRest(ps: seq<string>, t: string)
    requires Leftmost(ps, t) && |ps| > 1
    ensures Leftmost(ps[1..], t) && Find(ps[0] + t, 0, t) == Some(|ps[0]|)
  {
    hide Find, Contains;
    var qs := ps[1..];
    assert qs[|qs| - 1] == ps[|ps| - 1];
    forall i | 0 <= i < |qs| - 1 ensures Find(qs[i] + t, 0, t) == Some(|qs[i]|) {
      assert qs[i] == ps[i + 1];
    }
  }

  lemma CutBehind(s: string, p: nat, e: nat, t: string)
    requires p <= e && At(s, e, t)
    ensures s[p..] == s[p..e] + t + s[e + |t|..]
  {
  }

  /** And they are the only such pieces. */
  lemma {:induction false} PiecesUnique(s: string, t: string, ps: seq<string>)
    requires t != "" && Leftmost(ps, t) && JoinBy(ps, t) == s
    ensures ps == Pieces(s, t)
    decreases |ps|
  {
    hide Find, Pieces, At;
    OnePiece(s, t);
    if |ps| == 1 {
      assert Find(s, 0, t) == None;
    } else {
      var x, qs := ps[0], ps[1..];
      LeftmostRest(ps, t);
      hide Leftmost;
      var rest := JoinBy(qs, t);
      FirstPiece(x, t, rest);
      assert s == x + t + rest;
      assert s[..|x|] == x && s[|x| + |t|..] == rest;
      PiecesUnique(rest, t, qs);
      assert ps == [x] + qs;
    }
  }

  /** What `split` returns: exactly the leftmost pieces that join to the text. */
  lemma SplitIff(s: string, t: string, ps: seq<string>)
    requires t != ""
    ensures ps == Pieces(s, t) <==> Leftmost(ps, t) && JoinBy(ps, t) == s
  {
    PiecesJoin(s, t);
    if Leftmost(ps, t) && JoinBy(ps, t) == s { PiecesUnique(s, t, ps); }
  }

  /** No piece contains the separator. */
  lemma PiecesAreFree(s: string, t: string, i: nat)
    requires t != "" && i < |Pieces(s, t)|
    ensures !Contains(Pieces(s, t)[i], t)
  {
    PiecesJoin(s, t);
    var ps := Pieces(s, t);
    if i < |ps| - 1 && Contains(ps[i], t) {
      var k: nat :| At(ps[i], k, t);
      assert ps[i][k..k + |t|] == (ps[i] + t)[k..k + |t|];
      assert At(ps[i] + t, k, t);
    }
  }

  // ---------------------------------------------------------------- the loops

  lemma PieceInFront(s: string, x: string, t: string, rest: string)
    requires t != "" && s == x + t + rest && Find(s, 0, t) == Some(|x|)
    ensures Pieces(s, t) == [x] + Pieces(rest, t)
  {
    assert s[..|x|] == x && s[|x| + |t|..] == rest;
  }

  /** One turn of the split loop. */
  lemma NextPiece(s: string, begin: nat, t: string)
    requires t != "" && begin <= |s|
    ensures Find(s, begin, t) == None ==> Pieces(s[begin..], t) == [s[begin..]]
    ensures forall e :: Find(s, begin, t) == Some(e) ==>
      Pieces(s[begin..], t) == [s[begin..e]] + Pieces(s[e + |t|..], t)
  {
    hide Find, Pieces, At;
    FindInSuffix(s, begin, t);
    var f := Find(s, begin, t);
    if f.Some? {
      CutBehind(s, begin, f.value, t);
      PieceInFront(s[begin..], s[begin..f.value], t, s[f.value + |t|..]);
    } else {
      OnePiece(s[begin..], t);
    }
  }

  /** One turn of the replacement loop. */
  lemma NextReplaced(s: string, begin: nat, src: string, des: string)
    requires src != "" && begin <= |s|
    ensures Find(s, begin, src) == None ==> JoinBy(Pieces(s[begin..], src), des) == s[begin..]
    ensures forall e :: Find(s, begin, src) == Some(e) ==>
      JoinBy(Pieces(s[begin..], src), des) == s[begin..e] + des + JoinBy(Pieces(s[e + |src|..], src), des)
  {
    hide Find, Pieces;
    NextPiece(s, begin, src);
    var f := Find(s, begin, src);
    if f.Some? {
      var rest := Pieces(s[f.value + |src|..], src);
      assert ([s[begin..f.value]] + rest)[1..] == rest;
    }
  }

  /** `split`; it does not end on an empty separator. */
  method Split(str: string, des: string) returns (ret: seq<string>)
    requires des != ""
    ensures ret == Pieces(str, des)
  {
    hide Find, Pieces;
    ret := [];
    var begin := 0;
    var end := Find(str, begin, des);
    assert str[0..] == str;
    while end != None
      invariant begin <= |str| && end == Find(str, begin, des)
      invariant ret + Pieces(str[begin..], des) == Pieces(str, des)
      decreases |str| - begin
    {
      NextPiece(str, begin, des);
      ret := ret + [str[begin..end.value]];
      begin := end.value + |des|;
      end := Find(str, begin, des);
    }
    NextPiece(str, begin, des);
    ret := ret + [str[begin..]];
  }

  /** `replace_all`, on the text in place: it ends, even when the replacement contains what it replaces, with the
      pieces joined by the replacement. It does not end when there is nothing to look for. */
  method ReplaceAll(str: string, src: string, des: string) returns (r: string)
    requires src != ""
    ensures r == JoinBy(Pieces(str, src), des)
  {
    hide Find, Pieces, JoinBy;
    r := str;
    var pos := Find(r, 0, src);
    ghost var done: nat := 0;
    assert r[0..] == r && r[..0] + JoinBy(Pieces(r, src), des) == JoinBy(Pieces(r, src), des);
    while pos != None
      invariant done <= |r| && pos == Find(r, done, src)
      invariant r[..done] + JoinBy(Pieces(r[done..], src), des) == JoinBy(Pieces(str, src), des)
      decreases |r| - done
    {
      NextReplaced(r, done, src, des);
      Replaced(r, done, pos.value, src, des, JoinBy(Pieces(r[pos.value + |src|..], src), des));
      done := pos.value + |des|;
      r := r[..pos.value] + des + r[pos.value + |src|..];
      pos := Find(r, pos.value + |des|, src);
    }
    NextReplaced(r, done, src, des);
    assert r[..done] + r[done..] == r;
  }

  /** The text after one replacement, cut behind it. */
  lemma Replaced(r: string, done: nat, e: nat, src: string, des: string, rest: string)
    requires done <= e && e + |src| <= |r|
    ensures var r' := r[..e] + des + r[e + |src|..];
            r'[e + |des|..] == r[e + |src|..] && r'[..e + |des|] + rest == r[..done] + (r[done..e] + des + rest)
  {
    var r' := r[..e] + des + r[e + |src|..];
    assert r'[..e + |des|] == r[..e] + des;
    assert r[..done] + r[done..e] == r[..e];
  }
}
