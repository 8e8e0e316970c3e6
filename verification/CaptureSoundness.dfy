/** Whatever a pattern captures was there: patterns with the brokers' wildcards included. */
module CaptureSoundness {
  import opened Wrappers
  import opened AddressTemplates
  import opened AddressCaptures
  import opened PrefixCaptures

  /** What one item of a pattern may match. */
  ghost predicate PieceOf(item: Item, piece: string, sep: char) {
    match item
    case Lit(c) => piece == [c]
    case Cap(_) => piece != "" && sep !in piece
    case Segment => piece != "" && sep !in piece
    case Rest(min) => |piece| >= min && '\n' !in piece
    case OptionalRest => piece == "" || (piece[0] == sep && '\n' !in piece[1..])
    case _ => false
  }

  function Joined(pieces: seq<string>): string {
    if pieces == [] then "" else pieces[0] + Joined(pieces[1..])
  }

  /** The pieces that named groups have matched. */
  function CapturedBy(p: Pattern, pieces: seq<string>): Captures
    requires |p| == |pieces|
  {
    if p == [] then []
    else (if p[0].Cap? then [(p[0].name, pieces[0])] else []) + CapturedBy(p[1..], pieces[1..])
  }

  /** A piece for each item; joined they are what was matched, up to the end of the subject. */
  ghost predicate Explains(p: Pattern, pieces: seq<string>, s: string, captures: Captures, sep: char) {
    |pieces| == |p| && (forall i :: 0 <= i < |p| ==> PieceOf(p[i], pieces[i], sep)) &&
    captures == CapturedBy(p, pieces) && Joined(pieces) <= s && LineEnd(s[|Joined(pieces)|..])
  }

  ghost predicate Inner(p: Pattern) {
    forall i :: 0 <= i < |p| ==> !p[i].Skip? && !p[i].End?
  }

  lemma {:induction false} PieceFirst(p: Pattern, s: string, n: nat, pieces: seq<string>, rest: Captures, sep: char)
    requires p != [] && n <= |s| && PieceOf(p[0], s[..n], sep) && Explains(p[1..], pieces, s[n..], rest, sep)
    ensures Explains(p, [s[..n]] + pieces, s, (if p[0].Cap? then [(p[0].name, s[..n])] else []) + rest, sep)
  {
    var all := [s[..n]] + pieces;
    assert all[1..] == pieces;
    forall i | 0 <= i < |p| ensures PieceOf(p[i], all[i], sep) {
      assert i > 0 ==> p[i] == p[1..][i - 1] && all[i] == pieces[i - 1];
    }
    PieceThenRest(s, n, s[..n], Joined(pieces));
  }

  // ----- where the repetitions stop -----

  lemma {:induction false} LongestAt(items: Pattern, s: string, n: nat, sep: char) returns (m: nat)
    requires items != [] && (items[0].Cap? || items[0].Segment?) && n <= |s| && Longest(items, s, n, sep).Some?
    ensures 0 < m <= n && Match(items[1..], s[m..], sep).Some?
    ensures forall j :: m < j <= n ==> Match(items[1..], s[j..], sep).None?
    ensures Longest(items, s, n, sep).value
         == (if items[0].Cap? then [(items[0].name, s[..m])] else []) + Match(items[1..], s[m..], sep).value
    decreases n
  {
    if Match(items[1..], s[n..], sep).Some? {
      m := n;
    } else {
      m := LongestAt(items, s, n - 1, sep);
    }
  }

  lemma {:induction false} LongestRestAt(items: Pattern, s: string, n: nat, sep: char) returns (m: nat)
    requires items != [] && (items[0].Rest? || items[0].OptionalRest?) && n <= |s|
    requires LongestRest(items, s, n, sep).Some?
    ensures m <= n && (items[0].Rest? ==> items[0].min <= m)
    ensures LongestRest(items, s, n, sep) == Match(items[1..], s[m..], sep)
    ensures forall j :: m < j <= n ==> Match(items[1..], s[j..], sep).None?
    decreases n
  {
    if Match(items[1..], s[n..], sep).Some? || n == 0 {
      m := n;
    } else {
      m := LongestRestAt(items, s, n - 1, sep);
    }
  }

  lemma {:induction false} OnOneLine(s: string, n: nat)
    requires n <= LineLength(s)
    ensures '\n' !in s[..n]
  {
    if n > 0 {
      OnOneLine(s[1..], n - 1);
      assert s[..n] == [s[0]] + s[1..][..n - 1];
    }
  }

  // ----- main result -----

  /** How much of the subject the first item has matched, and what was captured behind it. */
  lemma {:induction false} FirstPiece(p: Pattern, s: string, sep: char, captures: Captures)
    returns (n: nat, rest: Captures)
    requires p != [] && Inner(p) && Match(p + [End], s, sep) == Some(captures)
    ensures n <= |s| && PieceOf(p[0], s[..n], sep) && Match(p[1..] + [End], s[n..], sep) == Some(rest)
    ensures captures == (if p[0].Cap? then [(p[0].name, s[..n])] else []) + rest
  {
    var items := p + [End];
    assert items[0] == p[0] && items[1..] == p[1..] + [End];
    match p[0] {
      case Lit(c) =>
        n := 1;
      case Rest(min) =>
        n := LongestRestAt(items, s, LineLength(s), sep);
        OnOneLine(s, n);
      case OptionalRest =>
        n := OptionalPiece(items, s, sep, captures);
      case _ =>
        n := LongestAt(items, s, SegmentLength(s, sep), sep);
        SegmentFree(s, n, sep);
    }
    rest := Match(p[1..] + [End], s[n..], sep).value;
  }

  lemma {:induction false} FurtherLevels(s: string, m: nat)
    requires s != "" && m <= LineLength(s[1..])
    ensures '\n' !in s[..m + 1][1..] && s[m + 1..] == s[1..][m..]
  {
    OnOneLine(s[1..], m);
    assert s[..m + 1][1..] == s[1..][..m];
  }

  lemma {:induction false} OptionalPiece(items: Pattern, s: string, sep: char, captures: Captures) returns (n: nat)
    requires items != [] && items[0].OptionalRest? && Match(items, s, sep) == Some(captures)
    ensures n <= |s| && PieceOf(items[0], s[..n], sep) && Match(items[1..], s[n..], sep) == Some(captures)
  {
    if s != "" && s[0] == sep && LongestRest(items, s[1..], LineLength(s[1..]), sep).Some? {
      var m := LongestRestAt(items, s[1..], LineLength(s[1..]), sep);
      n := m + 1;
      FurtherLevels(s, m);
    } else {
      n := 0;
      assert s[0..] == s;
    }
  }

  /** Every match, of any pattern on any subject, has a piece of the subject for each item; captures are such pieces. */
  lemma {:induction false} PiecesSound(p: Pattern, s: string, sep: char, captures: Captures)
    returns (pieces: seq<string>)
    requires Inner(p) && Match(p + [End], s, sep) == Some(captures)
    ensures Explains(p, pieces, s, captures, sep)
    decreases |p|
  {
    if p == [] {
      pieces := [];
      assert p + [End] == [End] && [End][1..] == [];
      assert s[0..] == s;
    } else {
      var n, rest := FirstPiece(p, s, sep, captures);
      var further := PiecesSound(p[1..], s[n..], sep, rest);
      PieceFirst(p, s, n, further, rest, sep);
      pieces := [s[..n]] + further;
    }
  }

  /** The same behind the skip that every compiled pattern starts with, which stays on the first line. */
  lemma {:induction false} SkippedPiecesSound(p: Pattern, s: string, sep: char, captures: Captures)
    returns (k: nat, pieces: seq<string>)
    requires Inner(p) && Match([Skip] + (p + [End]), s, sep) == Some(captures)
    ensures k <= |s| && (forall i :: 0 <= i < k ==> s[i] != '\n') && Explains(p, pieces, s[k..], captures, sep)
  {
    SkipIs(p + [End], s, sep);
    k := SkipFoundAt(p + [End], s, 0, sep);
    pieces := PiecesSound(p, s[k..], sep, captures);
  }
}
