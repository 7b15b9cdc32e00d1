/** The rule table both ants share: parsing a pattern text into parallel
    sequences of markers and turns, the marker and turn for a cell visited the
    first time, and the cyclic lookup for a revisited cell.

    `src/main.rs` and `src/hex.rs` build the same table and differ only in
    their turn alphabet, so the table is generic in the marker type `M` (the
    program's random `Color`, compared by equality only) and the turn type
    `T`; each ant supplies a `decode`
    function that maps a lower-case letter to its turn. */
module Patterns {
  import opened Outcomes

  /** Case folding of the pattern text: ASCII upper-case letters become
      lower-case, every other character is kept. */
  function Lower(c: char): (r: char)
    ensures !('A' <= r <= 'Z')
    ensures !('A' <= c <= 'Z') ==> r == c
    ensures 'A' <= c <= 'Z' ==> 'a' <= r <= 'z' && r as int - 'a' as int == c as int - 'A' as int
  {
    if 'A' <= c <= 'Z' then (c as int + 32) as char else c
  }

  /** Folding twice is folding once, and two characters fold together
      exactly when they are equal or are the two cases of one letter. */
  lemma LowerFolds(c: char, d: char)
    ensures Lower(Lower(c)) == Lower(c)
    ensures Lower(c) == Lower(d) <==>
              c == d || ('A' <= c <= 'Z' && d as int == c as int + 32)
                     || ('A' <= d <= 'Z' && c as int == d as int + 32)
  { }

  /** Entry `k` of the table is the pair `(colors[k], turns[k])`. */
  datatype Pattern<M, T> = Pattern(colors: seq<M>, turns: seq<T>)

  /** The shape a parsed pattern has: as many markers as turns, at least two. */
  predicate Valid<M, T>(p: Pattern<M, T>) {
    |p.colors| == |p.turns| && |p.colors| >= 2
  }

  /** Whether `c` names a turn, ignoring case. */
  predicate Recognised<T>(decode: char -> Option<T>, c: char) {
    decode(Lower(c)).Some?
  }

  /** The number of characters of `s` that name a turn. */
  function Count<T>(s: string, decode: char -> Option<T>): nat
  {
    if |s| == 0 then 0
    else Count(s[..|s| - 1], decode) + (if Recognised(decode, s[|s| - 1]) then 1 else 0)
  }

  /** A recognised character has fewer recognised characters before it than
      the whole text has. */
  lemma {:induction false} CountPrefixBelow<T>(s: string, decode: char -> Option<T>, i: nat)
    requires i < |s| && Recognised(decode, s[i])
    ensures Count(s[..i], decode) < Count(s, decode)
  {
    var n := |s| - 1;
    if i < n {
      assert s[..n][..i] == s[..i];
      assert s[..n][i] == s[i];
      CountPrefixBelow(s[..n], decode, i);
    } else {
      assert s[..i] == s[..n];
    }
  }

  /** Every rank below the count belongs to some recognised character. */
  lemma {:induction false} RankReached<T>(s: string, decode: char -> Option<T>, k: nat)
    requires k < Count(s, decode)
    ensures exists i :: 0 <= i < |s| && Recognised(decode, s[i]) && Count(s[..i], decode) == k
  {
    var n := |s| - 1;
    if k < Count(s[..n], decode) {
      RankReached(s[..n], decode, k);
      var i :| 0 <= i < n && Recognised(decode, s[..n][i]) && Count(s[..n][..i], decode) == k;
      assert s[..n][..i] == s[..i];
      assert s[..n][i] == s[i];
    } else {
      assert Recognised(decode, s[n]) && Count(s[..n], decode) == k;
    }
  }

  /** `p` lists the turn characters of `s` in order: there is one entry per
      recognised character, and the entry of the character at index `i`
      (whose rank is the number of recognised characters before it) holds
      the `i`-th drawn marker and that character's turn. A marker is
      drawn for every character, recognised or not. */
  ghost predicate Lists<M, T>(s: string, draw: nat -> M, decode: char -> Option<T>, p: Pattern<M, T>) {
    && |p.colors| == Count(s, decode)
    && |p.turns| == Count(s, decode)
    && forall i | 0 <= i < |s| && Recognised(decode, s[i]) ::
         && Count(s[..i], decode) < |p.colors|
         && Count(s[..i], decode) < |p.turns|
         && p.colors[Count(s[..i], decode)] == draw(i)
         && p.turns[Count(s[..i], decode)] == decode(Lower(s[i])).value
  }

  /** Two patterns that both list the turn characters of `s` are equal: the
      listing leaves no entry unspecified. */
  lemma ListsDeterminesPattern<M, T>(s: string, draw: nat -> M, decode: char -> Option<T>,
                                     p: Pattern<M, T>, q: Pattern<M, T>)
    requires Lists(s, draw, decode, p) && Lists(s, draw, decode, q)
    ensures p == q
  {
    forall k | 0 <= k < Count(s, decode)
      ensures p.colors[k] == q.colors[k] && p.turns[k] == q.turns[k]
    {
      RankReached(s, decode, k);
      var i :| 0 <= i < |s| && Recognised(decode, s[i]) && Count(s[..i], decode) == k;
    }
    assert p.colors == q.colors;
    assert p.turns == q.turns;
  }

  /** The loop of the parser: walk the text, and for every character draw a
      marker, keeping it (with the character's turn) only when the
      character names a turn. */
  function Collect<M, T>(s: string, draw: nat -> M, decode: char -> Option<T>): (p: Pattern<M, T>)
    ensures |p.colors| == |p.turns|
  {
    if |s| == 0 then Pattern([], [])
    else
      var pre := Collect(s[..|s| - 1], draw, decode);
      match decode(Lower(s[|s| - 1]))
      case Some(t) => Pattern(pre.colors + [draw(|s| - 1)], pre.turns + [t])
      case None => pre
  }

  lemma {:induction false} CollectLists<M, T>(s: string, draw: nat -> M, decode: char -> Option<T>)
    ensures Lists(s, draw, decode, Collect(s, draw, decode))
  {
    if |s| > 0 {
      var n := |s| - 1;
      var s' := s[..n];
      CollectLists(s', draw, decode);
      var pre := Collect(s', draw, decode);
      var p := Collect(s, draw, decode);
      assert p.colors[..|pre.colors|] == pre.colors && p.turns[..|pre.turns|] == pre.turns;
      forall i | 0 <= i < |s| && Recognised(decode, s[i])
        ensures && Count(s[..i], decode) < |p.colors|
                && Count(s[..i], decode) < |p.turns|
                && p.colors[Count(s[..i], decode)] == draw(i)
                && p.turns[Count(s[..i], decode)] == decode(Lower(s[i])).value
      {
        if i < n {
          assert s'[..i] == s[..i];
          assert s'[i] == s[i];
          CountPrefixBelow(s', decode, i);
          assert p.colors[Count(s[..i], decode)] == pre.colors[Count(s[..i], decode)];
          assert p.turns[Count(s[..i], decode)] == pre.turns[Count(s[..i], decode)];
        } else {
          assert s[..i] == s';
        }
      }
    }
  }

  /** Parse a pattern text. It fails exactly when fewer than two characters
      name a turn; otherwise the table lists those characters in order. */
  function Parse<M, T>(s: string, draw: nat -> M, decode: char -> Option<T>): (r: Result<Pattern<M, T>>)
    ensures r.Ok? <==> Count(s, decode) >= 2
    ensures r.Err? ==> r.error == IncorrectPattern
    ensures r.Ok? ==> Valid(r.value) && Lists(s, draw, decode, r.value)
  {
    CollectLists(s, draw, decode);
    var p := Collect(s, draw, decode);
    if |p.colors| < 2 then Err(IncorrectPattern) else Ok(p)
  }

  /** The marker and turn for a cell visited the first time: the SECOND
      marker of the table with the FIRST turn. Both lookups unwrap, so the
      table needs two markers and one turn. A blank cell is therefore treated
      exactly as if it had held the table's first marker: `First` agrees
      with `Next` of `colors[0]`. */
  function First<M(==), T>(p: Pattern<M, T>): (r: (M, T))
    requires |p.colors| >= 2 && |p.turns| >= 1
    ensures r.0 in p.colors && r.1 in p.turns
    ensures Next(p, p.colors[0]) == Ok(r)
  {
    (p.colors[1], p.turns[0])
  }

  /** The number of (marker, following marker) windows zipped with turns: one
      window per marker, cut short by the turns if there are fewer. */
  function Windows<M, T>(p: Pattern<M, T>): nat {
    if |p.colors| <= |p.turns| then |p.colors| else |p.turns|
  }

  /** Index `i` of a cyclic sequence of length `n`, where index `n` wraps
      back to the first entry. */
  function Cyclic(i: nat, n: nat): nat
    requires 0 < i <= n
  {
    if i == n then 0 else i
  }

  /** `j` is the first window, from `i` on, whose marker is `current`. */
  ghost predicate FirstMatchFrom<M>(colors: seq<M>, current: M, i: nat, j: nat)
    requires j < |colors|
  {
    && i <= j
    && colors[j] == current
    && forall k | i <= k < j :: colors[k] != current
  }

  /** The scan behind `Next`, from window `i` onwards. */
  function NextFrom<M(==), T>(p: Pattern<M, T>, current: M, i: nat): (r: Result<(M, T)>)
    requires i <= Windows(p)
    decreases Windows(p) - i
    ensures r.Err? <==> forall j | i <= j < Windows(p) :: p.colors[j] != current
    ensures r.Err? ==> r.error == NoMatchingColor
    ensures r.Ok? ==> r.value.0 in p.colors && r.value.1 in p.turns
    ensures forall j | i <= j < Windows(p) && FirstMatchFrom(p.colors, current, i, j) ::
              r == Ok((p.colors[Cyclic(j + 1, |p.colors|)], p.turns[j]))
  {
    if i == Windows(p) then Err(NoMatchingColor)
    else if p.colors[i] == current then Ok((p.colors[Cyclic(i + 1, |p.colors|)], p.turns[i]))
    else NextFrom(p, current, i + 1)
  }

  /** The marker and turn for a revisited cell holding `current`: the first
      entry whose marker is `current` gives the turn, and the marker of the
      entry after it (wrapping from the last entry to the first) replaces
      `current`. A marker found in no entry is an internal fault. */
  function Next<M(==), T>(p: Pattern<M, T>, current: M): (r: Result<(M, T)>)
    ensures |p.colors| == |p.turns| ==> (r.Err? <==> current !in p.colors)
    ensures r.Err? ==> r.error == NoMatchingColor
    ensures r.Ok? ==> r.value.0 in p.colors && r.value.1 in p.turns
    ensures forall j | 0 <= j < Windows(p) && FirstMatchFrom(p.colors, current, 0, j) ::
              r == Ok((p.colors[Cyclic(j + 1, |p.colors|)], p.turns[j]))
  {
    NextFrom(p, current, 0)
  }

  /** On a table with distinct markers, advancing entry `i`'s marker gives
      entry `i + 1`'s marker (cyclically) and entry `i`'s turn. */
  lemma NextOfDistinct<M, T>(p: Pattern<M, T>, i: nat)
    requires Valid(p) && i < |p.colors|
    requires forall a, b | 0 <= a < b < |p.colors| :: p.colors[a] != p.colors[b]
    ensures Next(p, p.colors[i]) == Ok((p.colors[Cyclic(i + 1, |p.colors|)], p.turns[i]))
  {
  }

  /** The marker a cell holds after `k` further visits, starting from `m`. */
  function Revisit<M(==), T>(p: Pattern<M, T>, m: M, k: nat): Result<M>
    decreases k
  {
    if k == 0 then Ok(m)
    else
      match Next(p, m)
      case Err(e) => Err(e)
      case Ok((m', _)) => Revisit(p, m', k - 1)
  }

  /** With distinct markers, a cell holding entry `i`'s marker holds entry
      `(i + k) mod N`'s marker after `k` more visits: revisits walk the table
      cyclically. */
  lemma {:induction false} RevisitCycles<M, T>(p: Pattern<M, T>, i: nat, k: nat)
    requires Valid(p) && i < |p.colors|
    requires forall a, b | 0 <= a < b < |p.colors| :: p.colors[a] != p.colors[b]
    ensures Revisit(p, p.colors[i], k) == Ok(p.colors[(i + k) % |p.colors|])
    decreases k
  {
    if k > 0 {
      var n := |p.colors|;
      var j := Cyclic(i + 1, n);
      NextOfDistinct(p, i);
      assert Next(p, p.colors[i]) == Ok((p.colors[j], p.turns[i]));
      RevisitStep(p, p.colors[i], p.colors[j], p.turns[i], k);
      RevisitCycles(p, j, k - 1);
      CyclicShift(i, k, n);
    } else {
      ModUnique(i, |p.colors|, 0, i);
    }
  }

  /** One revisit through a successful lookup. */
  lemma RevisitStep<M, T>(p: Pattern<M, T>, m: M, m': M, t: T, k: nat)
    requires 0 < k && Next(p, m) == Ok((m', t))
    ensures Revisit(p, m, k) == Revisit(p, m', k - 1)
  {
  }

  /** Stepping one entry cyclically and then `k - 1` more is stepping `k`. */
  lemma CyclicShift(i: nat, k: nat, n: nat)
    requires i < n && 0 < k
    ensures (Cyclic(i + 1, n) + (k - 1)) % n == (i + k) % n
  {
    if i + 1 == n {
      assert i + k == (k - 1) + n;
      ModAddPeriod(k - 1, n);
    }
  }

  /** Euclidean remainder is unique. */
  lemma ModUnique(a: int, n: int, q: int, r: int)
    requires 0 < n && 0 <= r < n && a == q * n + r
    ensures a % n == r
  {
    var q', r' := a / n, a % n;
    assert a == q' * n + r';
    var d := q - q';
    assert d * n == r' - r;
    assert d >= 1 ==> d * n >= n;
    assert d <= -1 ==> d * n <= -n;
  }

  /** Adding the modulus does not change the remainder. */
  lemma ModAddPeriod(x: nat, n: nat)
    requires 0 < n
    ensures (x + n) % n == x % n
  {
    assert x == (x / n) * n + x % n;
    ModUnique(x + n, n, x / n + 1, x % n);
  }

  /** Markers are drawn independently and may coincide. When entries `i < j`
      carry the same marker, the scan always stops at `i` or earlier, so
      window `j` is the first match for no marker: its turn is never taken
      and the marker after it is never painted through it. When `i` is the
      marker's first occurrence, the lookup returns entry `i`'s result. */
  lemma DuplicateMarkersShadowEntries<M, T>(p: Pattern<M, T>, i: nat, j: nat)
    requires Valid(p) && i < j < |p.colors| && p.colors[i] == p.colors[j]
    ensures forall c: M :: !FirstMatchFrom(p.colors, c, 0, j)
    ensures (forall a | 0 <= a < i :: p.colors[a] != p.colors[i]) ==>
              Next(p, p.colors[j]) == Ok((p.colors[Cyclic(i + 1, |p.colors|)], p.turns[i]))
  {
    assert (forall a | 0 <= a < i :: p.colors[a] != p.colors[i]) ==>
             FirstMatchFrom(p.colors, p.colors[i], 0, i);
  }

  /** When the first entry carrying marker `m` is followed (cyclically) by an
      entry with the same marker, a cell holding `m` keeps `m` on every
      revisit. */
  lemma {:induction false} DuplicateNeighboursFreeze<M, T>(p: Pattern<M, T>, i: nat, k: nat)
    requires Valid(p) && i < |p.colors|
    requires forall a | 0 <= a < i :: p.colors[a] != p.colors[i]
    requires p.colors[Cyclic(i + 1, |p.colors|)] == p.colors[i]
    ensures Revisit(p, p.colors[i], k) == Ok(p.colors[i])
    decreases k
  {
    if k > 0 {
      assert FirstMatchFrom(p.colors, p.colors[i], 0, i);
      assert Next(p, p.colors[i]) == Ok((p.colors[i], p.turns[i]));
      RevisitStep(p, p.colors[i], p.colors[i], p.turns[i], k);
      DuplicateNeighboursFreeze(p, i, k - 1);
    }
  }

  /** The two-entry table `[7, 7]`: the cell stays at marker 7 and only the
      first entry's turn is ever taken (turns written as letters here). */
  lemma ExampleDuplicateMarkers()
    ensures Next(Pattern([7, 7], ['R', 'L']), 7) == Ok((7, 'R'))
    ensures Revisit(Pattern([7, 7], ['R', 'L']), 7, 5) == Ok(7)
  {
  }

  /** The simplest marker source, used by the examples: character `i` draws
      marker `i`, so all markers are distinct. */
  function Serial(i: nat): nat {
    i
  }
}
