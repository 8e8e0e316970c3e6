/** The in-memory RabbitMQ topic matcher, compared with section 3.1.3.3 of AMQP 0-9-1. */
module TopicPattern {
  import opened Wrappers

  type Word = string

  // ----- words of a routing key -----

  /** `s.split(".")`: never empty, the empty string has one empty word. */
  function Split(s: string): (words: seq<Word>)
    ensures |words| >= 1
  {
    if s == "" then [""]
    else
      var rest := Split(s[1..]);
      if s[0] == '.' then [""] + rest else [[s[0]] + rest[0]] + rest[1..]
  }

  /** `".".join(words)`. */
  function Join(words: seq<Word>): string {
    if |words| == 0 then ""
    else if |words| == 1 then words[0]
    else words[0] + "." + Join(words[1..])
  }

  lemma {:induction false} JoinSplit(s: string)
    ensures Join(Split(s)) == s
    ensures forall i :: 0 <= i < |Split(s)| ==> '.' !in Split(s)[i]
  {
    if s != "" {
      JoinSplit(s[1..]);
      var rest := Split(s[1..]);
      assert Split(s)[1..] == if s[0] == '.' then rest else rest[1..];
    }
  }

  lemma {:induction false} SplitJoin(words: seq<Word>)
    requires |words| >= 1
    requires forall i :: 0 <= i < |words| ==> '.' !in words[i]
    ensures Split(Join(words)) == words
    decreases |words|, |words[0]|
  {
    var w, tail := words[0], words[1..];
    var s := Join(words);
    if w == "" {
      if |words| > 1 {
        assert s[1..] == Join(tail);
        SplitJoin(tail);
        assert words == [""] + tail;
      }
    } else {
      var shorter := [w[1..]] + tail;
      assert shorter[1..] == tail;
      assert s[0] == w[0] && s[1..] == Join(shorter);
      SplitJoin(shorter);
      assert w == [w[0]] + w[1..];
    }
  }

  // ----- the meaning of a binding pattern -----

  /** Section 3.1.3.3: `*` stands for one word, `#` for zero or more. */
  ghost predicate Amqp(p: seq<Word>, c: seq<Word>)
    decreases |p|, |c|
  {
    if p == [] then c == []
    else if p[0] == "#" then Amqp(p[1..], c) || (c != [] && Amqp(p, c[1..]))
    else c != [] && p[0] in {"*", c[0]} && Amqp(p[1..], c[1..])
  }

  /** Word by word agreement, `*` standing for any one word. */
  ghost predicate WordMatch(p: seq<Word>, c: seq<Word>) {
    |p| == |c| && forall i :: 0 <= i < |p| ==> p[i] == "*" || p[i] == c[i]
  }

  ghost predicate Plain(p: seq<Word>) {
    "#" !in p && "" !in p
  }

  // ----- the matcher -----

  /** What the main loop answers with `p` and `c` still to read. */
  function Greedy(p: seq<Word>, c: seq<Word>): bool
    decreases |c|
  {
    if p == [] || p[0] == "" then c == []
    else if c == [] then false
    else if p[0] == "#" then |p| == 1 || AfterHash(p[1..], c[1..])
    else p[0] in {"*", c[0]} && Greedy(p[1..], c[1..])
  }

  /** What it answers inside the `#` branch: skip the stars, then seek a literal. */
  function AfterHash(p: seq<Word>, c: seq<Word>): bool
    decreases |c|
  {
    if c == [] || p == [] then false
    else if p[0] == "*" then AfterHash(p[1..], c[1..])
    else if p[0] == c[0] then Greedy(p[1..], c[1..])
    else AfterHash(p, c[1..])
  }

  /** A Python iterator over words, read with `next(it, None)`. */
  class WordIterator {
    const words: seq<Word>
    var pos: nat

    constructor (words: seq<Word>)
      ensures this.words == words && pos == 0
    {
      this.words := words;
      pos := 0;
    }

    ghost function Rest(): seq<Word>
      reads this
      requires pos <= |words|
    {
      words[pos..]
    }

    method Next() returns (w: Option<Word>)
      requires pos <= |words|
      modifies this
      ensures pos <= |words|
      ensures Ahead(w, Rest(), old(Rest()))
    {
      if pos < |words| {
        w := Some(words[pos]);
        pos := pos + 1;
      } else {
        w := None;
      }
    }
  }

  /** `all` is the word `w` that was read ahead, if any, followed by `rest`. */
  ghost predicate Ahead(w: Option<Word>, rest: seq<Word>, all: seq<Word>) {
    if w.Some? then all != [] && all[0] == w.value && all[1..] == rest else all == rest == []
  }

  method ApplyPattern(pattern: string, current: string) returns (matched: bool)
    ensures matched == Greedy(Split(pattern), Split(current))
  {
    matched := ApplyWords(Split(pattern), Split(current));
  }

  /** The matcher on the split words. */
  method ApplyWords(patternWords: seq<Word>, currentWords: seq<Word>) returns (matched: bool)
    ensures matched == Greedy(patternWords, currentWords)
  {
    var patternQueue := new WordIterator(patternWords);
    var currentQueue := new WordIterator(currentWords);

    ghost var p, c := patternQueue.Rest(), currentQueue.Rest();
    assert p == patternWords && c == currentWords;
    ghost var answer := Greedy(p, c);
    var patternSymb := patternQueue.Next();
    while patternSymb.Some? && patternSymb.value != ""
      invariant patternQueue.pos <= |patternQueue.words| && currentQueue.pos <= |currentQueue.words|
      invariant Ahead(patternSymb, patternQueue.Rest(), p) && currentQueue.Rest() == c
      invariant answer == Greedy(p, c)
      decreases |c|
    {
      var nextSymb := currentQueue.Next();
      if nextSymb.None? {
        return false;
      }
      if patternSymb.value == "#" {
        var nextPattern := patternQueue.Next();
        if nextPattern.None? {
          return true;
        }
        p, c := p[1..], c[1..];
        ghost var left := |c|;
        nextSymb := currentQueue.Next();
        if nextSymb.None? {
          return false;
        }
        while nextPattern == Some("*")
          invariant patternQueue.pos <= |patternQueue.words| && currentQueue.pos <= |currentQueue.words|
          invariant Ahead(nextPattern, patternQueue.Rest(), p)
          invariant nextSymb.Some? && Ahead(nextSymb, currentQueue.Rest(), c)
          invariant answer == AfterHash(p, c)
          invariant |c| <= left
          decreases |c|
        {
          nextPattern := patternQueue.Next();
          nextSymb := currentQueue.Next();
          p, c := p[1..], c[1..];
          if nextSymb.None? {
            return false;
          }
        }
        while nextSymb != nextPattern
          invariant patternQueue.pos <= |patternQueue.words| && currentQueue.pos <= |currentQueue.words|
          invariant Ahead(nextPattern, patternQueue.Rest(), p)
          invariant nextSymb.Some? && Ahead(nextSymb, currentQueue.Rest(), c)
          invariant answer == AfterHash(p, c)
          invariant |c| <= left
          decreases |c|
        {
          nextSymb := currentQueue.Next();
          c := c[1..];
          if nextSymb.None? {
            return false;
          }
        }
        patternSymb := patternQueue.Next();
        p, c := p[1..], c[1..];
      } else if patternSymb.value in {"*", nextSymb.value} {
        patternSymb := patternQueue.Next();
        p, c := p[1..], c[1..];
      } else {
        return false;
      }
    }
    var leftover := currentQueue.Next();
    return leftover.None?;
  }

  // ----- when a true answer is right -----

  /** Whether the main loop, reading `p`, comes to an empty word and stops there. */
  predicate Stops(p: seq<Word>) {
    p != [] &&
    (p[0] == "" || if p[0] == "#" then StopsAfterHash(p[1..]) else Stops(p[1..]))
  }

  predicate StopsAfterHash(p: seq<Word>) {
    p != [] && if p[0] == "*" then StopsAfterHash(p[1..]) else Stops(p[1..])
  }

  /** A star right after a hash may be moved in front of it. */
  lemma {:induction false} HashStar(q: seq<Word>, c: seq<Word>)
    requires c != [] && Amqp(["#"] + q, c[1..])
    ensures Amqp(["#", "*"] + q, c)
    decreases |c|
  {
    var d := c[1..];
    assert (["#"] + q)[1..] == q;
    assert (["#", "*"] + q)[1..] == ["*"] + q && (["*"] + q)[1..] == q;
    if !Amqp(q, d) {
      HashStar(q, d);
    }
  }

  lemma {:induction false} GreedySound(p: seq<Word>, c: seq<Word>)
    requires !Stops(p) && Greedy(p, c)
    ensures Amqp(p, c)
    decreases |c|
  {
    if p != [] {
      if p[0] == "#" {
        if |p| == 1 {
          HashTakesAll(p, c);
        } else {
          AfterHashSound(p[1..], c[1..]);
          assert p == ["#"] + p[1..];
        }
      } else {
        GreedySound(p[1..], c[1..]);
      }
    }
  }

  lemma {:induction false} AfterHashSound(p: seq<Word>, c: seq<Word>)
    requires !StopsAfterHash(p) && AfterHash(p, c)
    ensures Amqp(["#"] + p, c)
    decreases |c|
  {
    assert (["#"] + p)[1..] == p;
    if p[0] == "*" {
      AfterHashSound(p[1..], c[1..]);
      HashStar(p[1..], c);
      assert ["#", "*"] + p[1..] == ["#"] + p;
    } else if p[0] == c[0] {
      GreedySound(p[1..], c[1..]);
      assert Amqp(p, c[1..]) || p[0] != "#";
      assert Amqp(p, c);
    } else {
      AfterHashSound(p, c[1..]);
    }
  }

  lemma {:induction false} HashTakesAll(p: seq<Word>, c: seq<Word>)
    requires forall i :: 0 <= i < |p| ==> p[i] == "#"
    requires p != []
    ensures Amqp(p, c)
    decreases |p|, |c|
  {
    if c != [] {
      HashTakesAll(p, c[1..]);
    } else if |p| > 1 {
      HashTakesAll(p[1..], c);
    }
  }

  // ----- witnesses -----

  /** A key the pattern stands for, every `*` and `#` read as the word `x`. */
  function OneWordEach(p: seq<Word>): (c: seq<Word>)
    ensures forall i :: 0 <= i < |c| ==> c[i] == "x" || c[i] in p
    ensures |c| == |p|
  {
    if p == [] then [] else [if p[0] in {"*", "#"} then "x" else p[0]] + OneWordEach(p[1..])
  }

  /** The shortest key the pattern stands for: `#` read as no word at all. */
  function HashesDropped(p: seq<Word>): (c: seq<Word>)
    ensures forall i :: 0 <= i < |c| ==> c[i] == "x" || c[i] in p
  {
    if p == [] then []
    else if p[0] == "#" then HashesDropped(p[1..])
    else [if p[0] == "*" then "x" else p[0]] + HashesDropped(p[1..])
  }

  /** The shortest key the matcher accepts when its loop stops at an empty word. */
  function AcceptedByStop(p: seq<Word>): (c: seq<Word>)
    ensures forall i :: 0 <= i < |c| ==> c[i] == "x" || c[i] in p
  {
    if p == [] || p[0] == "" then []
    else if p[0] == "#" then ["x"] + AcceptedAfterHash(p[1..])
    else [if p[0] == "*" then "x" else p[0]] + AcceptedByStop(p[1..])
  }

  function AcceptedAfterHash(p: seq<Word>): (c: seq<Word>)
    ensures forall i :: 0 <= i < |c| ==> c[i] == "x" || c[i] in p
  {
    if p == [] then []
    else if p[0] == "*" then ["x"] + AcceptedAfterHash(p[1..])
    else [p[0]] + AcceptedByStop(p[1..])
  }

  function EmptyWords(ws: seq<Word>): nat {
    if ws == [] then 0 else (if ws[0] == "" then 1 else 0) + EmptyWords(ws[1..])
  }

  lemma {:induction false} OneWordEachMatches(p: seq<Word>)
    ensures Amqp(p, OneWordEach(p))
  {
    if p != [] {
      OneWordEachMatches(p[1..]);
      assert OneWordEach(p)[1..] == OneWordEach(p[1..]);
      if p[0] == "#" {
        assert Amqp(p, OneWordEach(p[1..]));
      }
    }
  }

  lemma {:induction false} HashesDroppedMatches(p: seq<Word>)
    ensures Amqp(p, HashesDropped(p))
    ensures |HashesDropped(p)| <= |p|
    ensures "#" in p ==> |HashesDropped(p)| < |p|
    ensures HashesDropped(p) == [] ==> forall i :: 0 <= i < |p| ==> p[i] == "#"
  {
    if p != [] {
      HashesDroppedMatches(p[1..]);
      if p[0] != "#" {
        assert HashesDropped(p)[1..] == HashesDropped(p[1..]);
      }
    }
  }

  /** Every empty word of the pattern needs an empty word of the key. */
  lemma {:induction false} AmqpNeedsEmptyWords(p: seq<Word>, c: seq<Word>)
    requires Amqp(p, c)
    ensures EmptyWords(p) <= EmptyWords(c)
    decreases |p|, |c|
  {
    if p != [] {
      if p[0] != "#" || Amqp(p[1..], c) {
        AmqpNeedsEmptyWords(p[1..], if p[0] == "#" then c else c[1..]);
      } else {
        AmqpNeedsEmptyWords(p, c[1..]);
      }
    }
  }

  lemma {:induction false} StopAccepts(p: seq<Word>)
    requires Stops(p)
    ensures Greedy(p, AcceptedByStop(p))
    ensures EmptyWords(AcceptedByStop(p)) < EmptyWords(p)
    ensures p[0] != "" ==> AcceptedByStop(p) != []
  {
    var c := AcceptedByStop(p);
    if p[0] != "" {
      if p[0] == "#" {
        StopAcceptsAfterHash(p[1..]);
        assert c[1..] == AcceptedAfterHash(p[1..]);
      } else {
        StopAccepts(p[1..]);
        assert c[1..] == AcceptedByStop(p[1..]);
      }
    }
  }

  lemma {:induction false} StopAcceptsAfterHash(p: seq<Word>)
    requires StopsAfterHash(p)
    ensures AfterHash(p, AcceptedAfterHash(p))
    ensures EmptyWords(AcceptedAfterHash(p)) < EmptyWords(p)
  {
    var c := AcceptedAfterHash(p);
    if p[0] == "*" {
      StopAcceptsAfterHash(p[1..]);
      assert c[1..] == AcceptedAfterHash(p[1..]);
    } else {
      StopAccepts(p[1..]);
      assert c[1..] == AcceptedByStop(p[1..]);
    }
  }

  lemma {:induction false} StopRejectsOneWordEach(p: seq<Word>)
    requires Stops(p)
    ensures !Greedy(p, OneWordEach(p))
  {
    assert OneWordEach(p)[1..] == OneWordEach(p[1..]);
    if p[0] == "#" {
      StopRejectsAfterHash(p[1..]);
    } else if p[0] != "" {
      StopRejectsOneWordEach(p[1..]);
    }
  }

  lemma {:induction false} StopRejectsAfterHash(p: seq<Word>)
    requires StopsAfterHash(p)
    ensures !AfterHash(p, OneWordEach(p))
  {
    var c := OneWordEach(p);
    assert c[1..] == OneWordEach(p[1..]);
    if p[0] == "*" {
      StopRejectsAfterHash(p[1..]);
    } else if p[0] == "#" {
      NoHashWord(p);
      SeekFails(p, c);
    } else {
      StopRejectsOneWordEach(p[1..]);
    }
  }

  lemma {:induction false} NoHashWord(p: seq<Word>)
    ensures "#" !in OneWordEach(p)
  {
    if p != [] {
      NoHashWord(p[1..]);
    }
  }

  lemma {:induction false} SeekFails(p: seq<Word>, c: seq<Word>)
    requires p != [] && p[0] != "*" && p[0] !in c
    ensures !AfterHash(p, c)
    decreases |c|
  {
    if c != [] {
      SeekFails(p, c[1..]);
    }
  }

  /** Unless the loop stops early, every pattern word costs the key one word. */
  lemma {:induction false} GreedyLength(p: seq<Word>, c: seq<Word>)
    requires !Stops(p) && Greedy(p, c)
    ensures |p| <= |c|
    decreases |c|
  {
    if p != [] {
      if p[0] == "#" {
        if |p| > 1 {
          AfterHashLength(p[1..], c[1..]);
        }
      } else {
        GreedyLength(p[1..], c[1..]);
      }
    }
  }

  lemma {:induction false} AfterHashLength(p: seq<Word>, c: seq<Word>)
    requires !StopsAfterHash(p) && AfterHash(p, c)
    ensures |p| <= |c|
    decreases |c|
  {
    if p[0] == "*" {
      AfterHashLength(p[1..], c[1..]);
    } else if p[0] == c[0] {
      GreedyLength(p[1..], c[1..]);
    } else {
      AfterHashLength(p, c[1..]);
    }
  }

  lemma {:induction false} EmptyWordStops(p: seq<Word>)
    requires "#" !in p && "" in p
    ensures Stops(p)
  {
    if p[0] != "" {
      EmptyWordStops(p[1..]);
    }
  }

  // ----- main results -----

  ghost predicate Accepts(pattern: string, key: string) {
    Greedy(Split(pattern), Split(key))
  }

  ghost predicate Means(pattern: string, key: string) {
    Amqp(Split(pattern), Split(key))
  }

  /** The witnesses use words of the pattern and `x`, so they are routing keys. */
  lemma {:induction false} KeyOf(pattern: string, c: seq<Word>) returns (key: string)
    requires c != []
    requires forall i :: 0 <= i < |c| ==> c[i] == "x" || c[i] in Split(pattern)
    ensures Split(key) == c
  {
    key := Join(c);
    JoinSplit(pattern);
    forall i | 0 <= i < |c| ensures '.' !in c[i] {
      if c[i] in Split(pattern) {
        var j :| 0 <= j < |Split(pattern)| && Split(pattern)[j] == c[i];
      }
    }
    SplitJoin(c);
  }

  /**
   * The matcher never accepts a key the pattern does not stand for, for exactly the
   * patterns whose main loop is not stopped by an empty word after the first.
   */
  lemma {:induction false} SoundIff(pattern: string)
    ensures (forall key :: Accepts(pattern, key) ==> Means(pattern, key))
       <==> !Stops(Split(pattern)) || Split(pattern)[0] == ""
  {
    var p := Split(pattern);
    if !Stops(p) || p[0] == "" {
      forall key | Accepts(pattern, key) ensures Means(pattern, key) {
        if p[0] != "" {
          GreedySound(p, Split(key));
        }
      }
    } else {
      StopAccepts(p);
      var key := KeyOf(pattern, AcceptedByStop(p));
      if Means(pattern, key) {
        AmqpNeedsEmptyWords(p, Split(key));
      }
      assert Accepts(pattern, key) && !Means(pattern, key);
    }
  }

  /** In particular no pattern of non-empty words accepts a key it does not stand for. */
  lemma {:induction false} NonEmptyWordsNeverStop(p: seq<Word>)
    requires "" !in p
    ensures !Stops(p) && !StopsAfterHash(p)
  {
    if p != [] {
      NonEmptyWordsNeverStop(p[1..]);
    }
  }

  lemma {:induction false} Sound(pattern: string, key: string)
    requires "" !in Split(pattern) && Accepts(pattern, key)
    ensures Means(pattern, key)
  {
    NonEmptyWordsNeverStop(Split(pattern));
    GreedySound(Split(pattern), Split(key));
  }

  /** The matcher and AMQP agree on every key exactly for `#` alone and for patterns without `#`. */
  lemma {:induction false} ExactIff(pattern: string)
    ensures (forall key :: Accepts(pattern, key) <==> Means(pattern, key))
       <==> Split(pattern) == ["#"] || Plain(Split(pattern))
  {
    var p := Split(pattern);
    if p == ["#"] || Plain(p) {
      forall key ensures Accepts(pattern, key) <==> Means(pattern, key) {
        if p == ["#"] {
          HashTakesAll(p, Split(key));
        } else {
          PlainGreedy(p, Split(key));
          PlainAmqp(p, Split(key));
        }
      }
    } else {
      var key := MissedKey(pattern);
      assert !Accepts(pattern, key) && Means(pattern, key);
    }
  }

  /** A key the pattern stands for and the matcher refuses. */
  lemma {:induction false} MissedKey(pattern: string) returns (key: string)
    requires Split(pattern) != ["#"] && !Plain(Split(pattern))
    ensures Means(pattern, key) && !Accepts(pattern, key)
  {
    var p := Split(pattern);
    if Stops(p) || "#" !in p {
      if "#" !in p {
        EmptyWordStops(p);
      }
      OneWordEachMatches(p);
      StopRejectsOneWordEach(p);
      key := KeyOf(pattern, OneWordEach(p));
    } else {
      HashesDroppedMatches(p);
      var c := HashesDropped(p);
      if c == [] {
        HashTakesAll(p, ["x"]);
        c := ["x"];
        assert p == ["#"] + p[1..];
      }
      key := KeyOf(pattern, c);
      if Greedy(p, c) {
        GreedyLength(p, c);
      }
    }
  }

  /** Without `#` the words are matched one to one. */
  lemma {:induction false} PlainGreedy(q: seq<Word>, c: seq<Word>)
    requires Plain(q)
    ensures Greedy(q, c) <==> WordMatch(q, c)
    decreases |q|
  {
    if q != [] && c != [] {
      PlainGreedy(q[1..], c[1..]);
      WordMatchStep(q, c);
    }
  }

  lemma {:induction false} PlainAmqp(q: seq<Word>, c: seq<Word>)
    requires "#" !in q
    ensures Amqp(q, c) <==> WordMatch(q, c)
    decreases |q|
  {
    if q != [] && c != [] {
      PlainAmqp(q[1..], c[1..]);
      WordMatchStep(q, c);
    }
  }

  lemma {:induction false} WordMatchStep(q: seq<Word>, c: seq<Word>)
    requires q != [] && c != []
    ensures WordMatch(q, c) <==> q[0] in {"*", c[0]} && WordMatch(q[1..], c[1..])
  {
    if q[0] in {"*", c[0]} && WordMatch(q[1..], c[1..]) {
      forall i | 0 <= i < |q| ensures q[i] == "*" || q[i] == c[i] {
        if i > 0 {
          assert q[1..][i - 1] == q[i] && c[1..][i - 1] == c[i];
        }
      }
    }
  }

  /** A `#`-free beginning consumes its own length and leaves the rest. */
  lemma {:induction false} PlainPrefix(q: seq<Word>, p: seq<Word>, c: seq<Word>)
    requires Plain(q)
    ensures Greedy(q + p, c) <==> |q| <= |c| && WordMatch(q, c[..|q|]) && Greedy(p, c[|q|..])
    decreases |q|
  {
    if q == [] {
      assert q + p == p && c[0..] == c;
    } else {
      assert (q + p)[1..] == q[1..] + p;
      if c != [] {
        PlainPrefix(q[1..], p, c[1..]);
        if |q| <= |c| {
          WordMatchStep(q, c[..|q|]);
          assert c[..|q|][1..] == c[1..][..|q| - 1] && c[|q|..] == c[1..][|q| - 1..];
        }
      }
    }
  }

  /** A final `#` after `q`: a match of `q` with at least one word left over. */
  lemma {:induction false} LastHash(q: seq<Word>, c: seq<Word>)
    requires Plain(q)
    ensures Greedy(q + ["#"], c) <==> |q| < |c| && WordMatch(q, c[..|q|])
  {
    PlainPrefix(q, ["#"], c);
  }

  function Stars(k: nat): seq<Word> {
    if k == 0 then [] else ["*"] + Stars(k - 1)
  }

  /** `j` is the first index from `start` on where `c` has the word `lit`. */
  ghost predicate FirstAt(c: seq<Word>, start: nat, lit: Word, j: nat) {
    start <= j < |c| && c[j] == lit && forall i :: start <= i < j ==> c[i] != lit
  }

  /** From `start` on, `lit` occurs and `r` matches what follows its first occurrence. */
  ghost predicate Commits(c: seq<Word>, start: nat, lit: Word, r: seq<Word>) {
    exists j: nat :: FirstAt(c, start, lit, j) && Greedy(r, c[j + 1..])
  }

  /**
   * `#`, then `k` stars, then a literal: the matcher commits to the first occurrence of
   * the literal that leaves a word for the `#` and one for each star.
   */
  lemma {:induction false} HashSegment(q: seq<Word>, k: nat, lit: Word, r: seq<Word>, c: seq<Word>)
    requires Plain(q) && lit != "*"
    ensures Greedy(q + (["#"] + (Stars(k) + ([lit] + r))), c)
       <==> |q| < |c| && WordMatch(q, c[..|q|]) && Commits(c, |q| + 1 + k, lit, r)
  {
    var s := [lit] + r;
    HashThenStars(q, k, s, c);
    if |q| + 1 + k <= |c| {
      Seek(lit, r, c, |q| + 1 + k);
    }
  }

  lemma {:induction false} HashThenStars(q: seq<Word>, k: nat, s: seq<Word>, c: seq<Word>)
    requires Plain(q) && (s == [] ==> k > 0) && (s != [] ==> s[0] != "*")
    ensures Greedy(q + (["#"] + (Stars(k) + s)), c)
       <==> |q| + 1 + k <= |c| && WordMatch(q, c[..|q|]) && AfterHash(s, c[|q| + 1 + k..])
  {
    if |q| < |c| {
      HashAfter(q, Stars(k) + s, c);
      SkipStars(k, s, c, |q| + 1);
    } else {
      PlainPrefix(q, ["#"] + (Stars(k) + s), c);
    }
  }

  lemma {:induction false} HashAfter(q: seq<Word>, p: seq<Word>, c: seq<Word>)
    requires Plain(q) && p != [] && |q| < |c|
    ensures Greedy(q + (["#"] + p), c) <==> WordMatch(q, c[..|q|]) && AfterHash(p, c[|q| + 1..])
  {
    PlainPrefix(q, ["#"] + p, c);
    HashThen(p, c, |q|);
  }

  lemma {:induction false} HashThen(p: seq<Word>, c: seq<Word>, i: nat)
    requires p != [] && i < |c|
    ensures Greedy(["#"] + p, c[i..]) <==> AfterHash(p, c[i + 1..])
  {
    assert (["#"] + p)[1..] == p;
    assert c[i..][1..] == c[i + 1..];
  }

  lemma {:induction false} SkipStars(k: nat, p: seq<Word>, c: seq<Word>, i: nat)
    requires i <= |c|
    requires p != [] ==> p[0] != "*"
    ensures AfterHash(Stars(k) + p, c[i..]) <==> i + k <= |c| && AfterHash(p, c[i + k..])
    decreases k
  {
    if k == 0 {
      assert Stars(k) + p == p;
    } else {
      assert (Stars(k) + p)[1..] == Stars(k - 1) + p;
      if i < |c| {
        SkipStars(k - 1, p, c, i + 1);
        assert c[i..][1..] == c[i + 1..];
      }
    }
  }

  lemma {:induction false} Seek(lit: Word, r: seq<Word>, c: seq<Word>, start: nat)
    requires lit != "*" && start <= |c|
    ensures AfterHash([lit] + r, c[start..]) <==> Commits(c, start, lit, r)
    decreases |c| - start
  {
    var p := [lit] + r;
    assert p[1..] == r;
    if start < |c| {
      assert c[start..][1..] == c[start + 1..];
      if c[start] == lit {
        assert FirstAt(c, start, lit, start);
      } else {
        Seek(lit, r, c, start + 1);
        if Commits(c, start, lit, r) {
          var j: nat :| FirstAt(c, start, lit, j) && Greedy(r, c[j + 1..]);
          assert FirstAt(c, start + 1, lit, j);
        }
        if Commits(c, start + 1, lit, r) {
          var j: nat :| FirstAt(c, start + 1, lit, j) && Greedy(r, c[j + 1..]);
          assert FirstAt(c, start, lit, j);
        }
      }
    }
  }

  /** Stars that end the pattern right after a `#` make it match nothing at all. */
  lemma {:induction false} TrailingStars(q: seq<Word>, k: nat, c: seq<Word>)
    requires Plain(q) && k > 0
    ensures !Greedy(q + (["#"] + Stars(k)), c)
  {
    assert Stars(k) == Stars(k) + [];
    HashThenStars(q, k, [], c);
  }
}
