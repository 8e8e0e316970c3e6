/** The ordered matcher read item by item: what each item may take, and which take is preferred. */
module MatchReading {
  import opened Wrappers
  import opened AddressTemplates
  import opened AddressCaptures
  import opened PrefixCaptures
  import opened CaptureSoundness
  import opened BrokerSyntaxes

  /** `item` may match the first `n` characters. */
  ghost predicate Takes(item: Item, s: string, n: nat, sep: char) {
    n <= |s| &&
    match item
    case Lit(c) => s[..n] == [c]
    case Cap(_) => n > 0 && sep !in s[..n]
    case Segment => n > 0 && sep !in s[..n]
    case Rest(min) => n >= min && '\n' !in s[..n]
    case OptionalRest => n == 0 || (s[0] == sep && '\n' !in s[1..n])
    case Skip => '\n' !in s[..n]
    case End => n == |s| && (s == "" || s == "\n")
  }

  /** It may match them, and the rest of the pattern what follows. */
  ghost predicate Fits(items: Pattern, s: string, n: nat, sep: char)
    requires items != []
  {
    Takes(items[0], s, n, sep) && Match(items[1..], s[n..], sep).Some?
  }

  /** A skip takes as little as it can, everything else as much as it can. */
  ghost predicate Preferred(items: Pattern, s: string, n: nat, sep: char)
    requires items != []
  {
    Fits(items, s, n, sep) &&
    forall m: nat :: Fits(items, s, m, sep) ==> if items[0].Skip? then n <= m else m <= n
  }

  function Capturing(item: Item, piece: string, rest: Captures): Captures {
    if item.Cap? then [(item.name, piece)] + rest else rest
  }

  lemma {:induction false} TakeFirst(s: string, n: nat)
    requires 0 < n <= |s|
    ensures s[..n] == [s[0]] + s[1..][..n - 1]
  {
  }

  lemma {:induction false} SegmentIs(s: string, n: nat, sep: char)
    requires n <= |s|
    ensures sep !in s[..n] <==> n <= SegmentLength(s, sep)
  {
    if n > 0 {
      SegmentIs(s[1..], n - 1, sep);
      TakeFirst(s, n);
    }
  }

  lemma {:induction false} LineIs(s: string, n: nat)
    requires n <= |s|
    ensures '\n' !in s[..n] <==> n <= LineLength(s)
  {
    if n > 0 {
      LineIs(s[1..], n - 1);
      TakeFirst(s, n);
    }
  }

  lemma {:induction false} LongestFails(items: Pattern, s: string, n: nat, sep: char)
    requires items != [] && (items[0].Cap? || items[0].Segment?) && n <= |s| && Longest(items, s, n, sep).None?
    ensures forall m :: 0 < m <= n ==> Match(items[1..], s[m..], sep).None?
  {
    if n > 0 {
      LongestFails(items, s, n - 1, sep);
    }
  }

  lemma {:induction false} LongestRestFails(items: Pattern, s: string, n: nat, sep: char)
    requires items != [] && (items[0].Rest? || items[0].OptionalRest?) && n <= |s|
    requires LongestRest(items, s, n, sep).None?
    ensures forall m: nat :: (if items[0].Rest? then items[0].min else 0) <= m <= n ==>
      Match(items[1..], s[m..], sep).None?
  {
    if n > 0 && !(items[0].Rest? && n < items[0].min) {
      LongestRestFails(items, s, n - 1, sep);
    }
  }

  // ----- each item -----

  /** What the match of a non-empty pattern is, told from the matches of what comes behind its first item. */
  ghost predicate Reads(items: Pattern, s: string, sep: char)
    requires items != []
  {
    ((exists n: nat :: Fits(items, s, n, sep)) ==> Match(items, s, sep).Some?) &&
    (Match(items, s, sep).Some? ==> exists n: nat :: Preferred(items, s, n, sep)) &&
    forall n: nat :: Preferred(items, s, n, sep) ==>
      Match(items, s, sep) == Some(Capturing(items[0], s[..n], Match(items[1..], s[n..], sep).value))
  }

  lemma {:induction false} ReadsAt(items: Pattern, s: string, n: nat, sep: char)
    requires items != [] && Preferred(items, s, n, sep)
    requires Match(items, s, sep) == Some(Capturing(items[0], s[..n], Match(items[1..], s[n..], sep).value))
    ensures Reads(items, s, sep)
  {
    forall m: nat | Preferred(items, s, m, sep) ensures m == n {
      assert Fits(items, s, m, sep) && Fits(items, s, n, sep);
    }
  }

  lemma {:induction false} SegmentReads(items: Pattern, s: string, sep: char)
    requires items != [] && (items[0].Cap? || items[0].Segment?)
    ensures Reads(items, s, sep)
  {
    var reach := SegmentLength(s, sep);
    forall n: nat | n <= |s| ensures Takes(items[0], s, n, sep) <==> 0 < n <= reach {
      SegmentIs(s, n, sep);
    }
    if Match(items, s, sep).None? {
      LongestFails(items, s, reach, sep);
    } else {
      var n := LongestAt(items, s, reach, sep);
      var rest := Match(items[1..], s[n..], sep).value;
      assert [] + rest == rest;
      ReadsAt(items, s, n, sep);
    }
  }

  lemma {:induction false} RestReads(items: Pattern, s: string, sep: char)
    requires items != [] && items[0].Rest?
    ensures Reads(items, s, sep)
  {
    var reach := LineLength(s);
    forall n: nat | n <= |s| ensures Takes(items[0], s, n, sep) <==> items[0].min <= n <= reach {
      LineIs(s, n);
    }
    if Match(items, s, sep).None? {
      LongestRestFails(items, s, reach, sep);
    } else {
      var n := LongestRestAt(items, s, reach, sep);
      ReadsAt(items, s, n, sep);
    }
  }

  lemma {:induction false} OptionalTakes(s: string, n: nat, sep: char)
    requires n <= |s|
    ensures Takes(OptionalRest, s, n, sep) <==> n == 0 || (s[0] == sep && n - 1 <= LineLength(s[1..]))
  {
    if n > 0 {
      assert s[1..n] == s[1..][..n - 1];
      LineIs(s[1..], n - 1);
    }
  }

  lemma {:induction false} OptionalReads(items: Pattern, s: string, sep: char)
    requires items != [] && items[0].OptionalRest?
    ensures Reads(items, s, sep)
  {
    forall n: nat | n <= |s|
      ensures Takes(OptionalRest, s, n, sep) <==> n == 0 || (s[0] == sep && n - 1 <= LineLength(s[1..]))
    {
      OptionalTakes(s, n, sep);
    }
    if s == "" || s[0] != sep {
      OnlyNothing(items, s, sep);
    } else {
      FurtherReads(items, s, sep);
    }
  }

  lemma {:induction false} FurtherReads(items: Pattern, s: string, sep: char)
    requires items != [] && items[0].OptionalRest? && s != "" && s[0] == sep
    requires forall n: nat :: n <= |s| ==> (Takes(OptionalRest, s, n, sep) <==> n == 0 || n - 1 <= LineLength(s[1..]))
    ensures Reads(items, s, sep)
  {
    var reach := LineLength(s[1..]);
    forall n: nat | 0 < n <= |s| ensures s[n..] == s[1..][n - 1..] {
    }
    if LongestRest(items, s[1..], reach, sep).None? {
      LongestRestFails(items, s[1..], reach, sep);
      OnlyNothing(items, s, sep);
    } else {
      var k := LongestRestAt(items, s[1..], reach, sep);
      ReadsAt(items, s, k + 1, sep);
    }
  }

  /** If only nothing can be taken, the rest of the pattern decides on all of the subject. */
  lemma {:induction false} OnlyNothing(items: Pattern, s: string, sep: char)
    requires items != [] && items[0].OptionalRest?
    requires forall n: nat :: Fits(items, s, n, sep) ==> n == 0
    requires Match(items, s, sep) == Match(items[1..], s, sep)
    ensures Reads(items, s, sep)
  {
    assert s[0..] == s;
    if Match(items, s, sep).Some? {
      ReadsAt(items, s, 0, sep);
    }
  }

  lemma {:induction false} SkipReads(items: Pattern, s: string, sep: char)
    requires items != [] && items[0].Skip?
    ensures Reads(items, s, sep)
  {
    assert items == [Skip] + items[1..];
    SkipIs(items[1..], s, sep);
    if Match(items, s, sep).Some? {
      var k := SkipFoundAt(items[1..], s, 0, sep);
      ReadsAt(items, s, k, sep);
    } else if n: nat :| Fits(items, s, n, sep) {
      assert forall i :: 0 <= i < n ==> s[..n][i] == s[i];
      SkipFinds(items[1..], s, 0, n, sep);
    }
  }

  lemma {:induction false} FixedReads(items: Pattern, s: string, sep: char)
    requires items != [] && (items[0].Lit? || items[0].End?)
    ensures Reads(items, s, sep)
  {
    var n := if items[0].Lit? then 1 else |s|;
    assert forall m: nat :: Takes(items[0], s, m, sep) ==> m == n;
    assert s[|s|..] == "";
    if s != "" {
      assert s[..1] == [s[0]];
    }
    if Match(items, s, sep).Some? {
      ReadsAt(items, s, n, sep);
    }
  }

  /**
   * The matcher, item by item: a pattern matches exactly if its first item can take some characters after which
   * the rest matches; of those takes the preferred one is made, and a group captures it.
   */
  lemma {:induction false} MatchReads(items: Pattern, s: string, sep: char)
    ensures items == [] ==> Match(items, s, sep) == Some([])
    ensures items != [] ==> Reads(items, s, sep)
  {
    if items != [] {
      match items[0] {
        case Lit(_) => FixedReads(items, s, sep);
        case End => FixedReads(items, s, sep);
        case Cap(_) => SegmentReads(items, s, sep);
        case Segment => SegmentReads(items, s, sep);
        case Rest(_) => RestReads(items, s, sep);
        case OptionalRest => OptionalReads(items, s, sep);
        case Skip => SkipReads(items, s, sep);
      }
    }
  }
}
