/**
 * The original prototype of the game (src/App.jsx): a shuffled pool that
 * passwords are popped from, two cards whose counts are fetched when they
 * are drawn, and a champion that is retired after two wins in a row.
 * The fetch is the `lookup` input: a count, or None when the request threw.
 */
module Prototype {
  import opened Js
  import opened Text
  import opened Wrappers
  import Pwned

  // ----- shuffle -----

  /** `[a[i], a[j]] = [a[j], a[i]]` on a copy. */
  function Swap<T>(a: seq<T>, i: nat, j: nat): (r: seq<T>)
    requires i < |a| && j < |a|
    ensures |r| == |a| && multiset(r) == multiset(a)
  {
    if i == j then a
    else
      SwapMultiset(a, i, j);
      a[i := a[j]][j := a[i]]
  }

  lemma SwapMultiset<T>(a: seq<T>, i: nat, j: nat)
    requires i < |a| && j < |a|
    ensures multiset(a[i := a[j]][j := a[i]]) == multiset(a)
  {
    var b := a[i := a[j]];
    assert multiset(b) == multiset(a) - multiset{a[i]} + multiset{a[j]};
    assert multiset(b[j := a[i]]) == multiset(b) - multiset{b[j]} + multiset{a[i]};
  }

  /** The swap indices a Fisher-Yates pass may use: `swaps[i]` in [0, i] for each i > 0. */
  predicate ValidSwaps(n: nat, swaps: seq<int>) {
    |swaps| == n && forall i :: 1 <= i < n ==> FloorRandomRange(i + 1, swaps[i])
  }

  /** The loop of `shuffle` from index `i` down to 1. */
  function ShuffleFrom<T>(a: seq<T>, swaps: seq<int>, i: int): (r: seq<T>)
    requires ValidSwaps(|a|, swaps) && i < |a|
    ensures |r| == |a| && multiset(r) == multiset(a)
    decreases i
  {
    if i <= 0 then a else ShuffleFrom(Swap(a, i, swaps[i]), swaps, i - 1)
  }

  /** `shuffle(values)`: a permutation of the input (which is a value, so it is left as it was). */
  function Shuffle<T>(values: seq<T>, swaps: seq<int>): (r: seq<T>)
    requires ValidSwaps(|values|, swaps)
    ensures |r| == |values| && multiset(r) == multiset(values)
  {
    ShuffleFrom(values, swaps, |values| - 1)
  }

  /** The shuffle with every swap index equal to its position leaves the order as it was. */
  lemma {:induction false} IdentitySwapsKeepOrder<T>(a: seq<T>, swaps: seq<int>, i: int)
    requires ValidSwaps(|a|, swaps) && i < |a|
    requires forall k :: 1 <= k < |a| ==> swaps[k] == k
    ensures ShuffleFrom(a, swaps, i) == a
    decreases i
  {
    if i > 0 {
      IdentitySwapsKeepOrder(a, swaps, i - 1);
    }
  }

  // ----- range-line matching of fetchPwnedCount -----

  /**
   * The count `fetchPwnedCount` reads from a response body: the first line
   * whose trimmed text, before its first ':', equals the suffix exactly
   * gives `parseInt` of its second field (NaN when there is none); no such
   * line gives 0.
   */
  function MatchCount(lines: seq<string>, suffix: string): (n: Num)
    ensures (forall i :: 0 <= i < |lines| ==> Split(Trim(lines[i]), ':')[0] != suffix) ==> n == Int(0)
    ensures forall i :: 0 <= i < |lines| ==>
      (Split(Trim(lines[i]), ':')[0] == suffix && forall j :: 0 <= j < i ==> Split(Trim(lines[j]), ':')[0] != suffix)
      ==> n == FieldCount(Split(Trim(lines[i]), ':'))
  {
    if |lines| == 0 then Int(0)
    else
      var fields := Split(Trim(lines[0]), ':');
      if fields[0] == suffix then FieldCount(fields) else MatchCount(lines[1..], suffix)
  }

  /** `Number.parseInt(match[1], 10)`; a missing field is `undefined`, which parses to NaN. */
  function FieldCount(fields: seq<string>): Num {
    if |fields| >= 2 then ParseInt(fields[1]) else NaN
  }

  /** The matched count, when not 0, is the field count of some line that carries the suffix. */
  lemma {:induction false} MatchCountFrom(lines: seq<string>, suffix: string)
    ensures MatchCount(lines, suffix) == Int(0) ||
      exists i :: 0 <= i < |lines| && Split(Trim(lines[i]), ':')[0] == suffix &&
        MatchCount(lines, suffix) == FieldCount(Split(Trim(lines[i]), ':'))
  {
    if |lines| > 0 && Split(Trim(lines[0]), ':')[0] != suffix {
      var tail := lines[1..];
      MatchCountFrom(tail, suffix);
      if MatchCount(tail, suffix) != Int(0) {
        var i :| 0 <= i < |tail| && Split(Trim(tail[i]), ':')[0] == suffix &&
          MatchCount(tail, suffix) == FieldCount(Split(Trim(tail[i]), ':'));
        assert tail[i] == lines[i + 1];
      }
    }
  }

  /**
   * The count `fetchPwnedCount` returns for a response body: 0, or the
   * field count of a line whose trimmed text before ':' is the suffix.
   */
  function FetchCountFromBody(body: string, suffix: string): (n: Num)
    ensures n == Int(0) ||
      exists line :: line in Split(body, '\n') && Split(Trim(line), ':')[0] == suffix && n == FieldCount(Split(Trim(line), ':'))
    ensures ':' in suffix ==> n == Int(0)
  {
    MatchCountFrom(Split(body, '\n'), suffix);
    MatchCount(Split(body, '\n'), suffix)
  }

  /** On a well-formed response the prototype's matcher agrees with the current parser's lookup. */
  lemma MatchFormatted(entries: seq<Pwned.RangeEntry>, i: nat)
    requires forall k :: 0 <= k < |entries| ==> Pwned.WellFormedSuffix(entries[k].suffix)
    requires i < |entries|
    requires forall j :: 0 <= j < i ==> entries[j].suffix != entries[i].suffix
    ensures FetchCountFromBody(Pwned.FormatRange(entries), entries[i].suffix) == Int(entries[i].count)
  {
    FormattedLines(entries);
    MatchInLines(Pwned.FormatLines(entries), entries, i);
  }

  /** A formatted response splits back into its lines. */
  lemma FormattedLines(entries: seq<Pwned.RangeEntry>)
    requires forall k :: 0 <= k < |entries| ==> Pwned.WellFormedSuffix(entries[k].suffix)
    requires |entries| > 0
    ensures Split(Pwned.FormatRange(entries), '\n') == Pwned.FormatLines(entries)
  {
    var lines := Pwned.FormatLines(entries);
    forall k | 0 <= k < |lines|
      ensures '\n' !in lines[k]
    {
      Pwned.FormatLineFields(entries[k]);
    }
    SplitJoin(lines, '\n');
  }

  lemma MatchInLines(lines: seq<string>, entries: seq<Pwned.RangeEntry>, i: nat)
    requires forall k :: 0 <= k < |entries| ==> Pwned.WellFormedSuffix(entries[k].suffix)
    requires |lines| == |entries| && i < |entries|
    requires forall k :: 0 <= k < |lines| ==> lines[k] == Pwned.FormatLine(entries[k])
    requires forall j :: 0 <= j < i ==> entries[j].suffix != entries[i].suffix
    ensures MatchCount(lines, entries[i].suffix) == Int(entries[i].count)
  {
    forall j | 0 <= j <= i
      ensures Split(Trim(lines[j]), ':')[0] == entries[j].suffix
    {
      TrimmedFormatLine(entries[j]);
    }
    TrimmedFormatLine(entries[i]);
    ParseIntRoundTrip(entries[i].count);
    assert FieldCount(Split(Trim(lines[i]), ':')) == Int(entries[i].count);
  }

  lemma TrimmedFormatLine(e: Pwned.RangeEntry)
    requires Pwned.WellFormedSuffix(e.suffix)
    ensures Split(Trim(Pwned.FormatLine(e)), ':') == [e.suffix, Decimal(e.count)]
  {
    var d := Decimal(e.count);
    var line := Pwned.FormatLine(e);
    var core := e.suffix + ":" + d;
    assert line == core + "\r";
    assert !IsSpace(core[0]) by { assert core[0] == e.suffix[0]; }
    assert !IsSpace(core[|core| - 1]) by { assert core[|core| - 1] == d[|d| - 1]; }
    assert TrimStart(line) == line;
    assert line[..|line| - 1] == core;
    assert Trim(line) == core;
    Pwned.SuffixLacks(e.suffix, ':');
    Pwned.DigitsLack(d, ':');
    assert core == Join([e.suffix, d], ":");
    SplitJoin([e.suffix, d], ':');
  }

  // ----- the game -----

  datatype Card = Card(password: string, count: Num)

  datatype Status = Loading | Ready | Correct | GameOverStatus | Error

  datatype Champion = Champion(password: Option<string>, streak: int)

  datatype State = State(
    unused: seq<string>,
    left: Option<Card>,
    right: Option<Card>,
    status: Status,
    revealed: bool,
    score: int,
    champion: Champion)

  /** The state before the first `startGame` completes. */
  const Initial: State := State([], None, None, Loading, false, 0, Champion(None, 0))

  /** What `drawPassword` does to a pool: nothing left, a card drawn, or a failed fetch. */
  datatype DrawOutcome = Exhausted | Drawn(card: Card, rest: seq<string>) | Threw

  /** `drawPassword(pool)`: null for an empty pool, otherwise pop the last value and fetch its count. */
  function DrawPassword(pool: seq<string>, lookup: string -> Option<Num>): (d: DrawOutcome)
    ensures d.Exhausted? <==> |pool| == 0
    ensures d.Drawn? ==> pool == d.rest + [d.card.password] && lookup(d.card.password) == Some(d.card.count)
    ensures d.Threw? ==> |pool| > 0 && lookup(pool[|pool| - 1]) == None
  {
    if |pool| == 0 then Exhausted
    else
      var password := pool[|pool| - 1];
      match lookup(password)
      case None => Threw
      case Some(count) => Drawn(Card(password, count), pool[..|pool| - 1])
  }

  /** The pairs of cards two successive draws yield, or why they did not. */
  datatype PairOutcome = PairFailed(threw: bool) | Pair(first: Card, second: Card, rest: seq<string>)

  /** Two successive `drawPassword` calls on the same pool; a throw wins over an empty pool. */
  function DrawPair(pool: seq<string>, lookup: string -> Option<Num>): (p: PairOutcome)
    ensures p.Pair? ==> pool == p.rest + [p.second.password, p.first.password]
    ensures p.Pair? <==> |pool| >= 2 && lookup(pool[|pool| - 1]).Some? && lookup(pool[|pool| - 2]).Some?
  {
    match DrawPassword(pool, lookup)
    case Threw => PairFailed(true)
    case Exhausted => PairFailed(false)
    case Drawn(first, pool1) =>
      match DrawPassword(pool1, lookup)
      case Threw => PairFailed(true)
      case Exhausted => PairFailed(false)
      case Drawn(second, pool2) => Pair(first, second, pool2)
  }

  /**
   * `startGame`: reset the score, revealed flag and champion, shuffle the
   * pool and draw two cards; any failure (too few passwords or a failed
   * fetch) ends in 'error' with the previous cards and pool left in place.
   */
  function StartGame(s: State, pool: seq<string>, swaps: seq<int>, lookup: string -> Option<Num>): (r: State)
    requires ValidSwaps(|pool|, swaps)
    ensures r.score == 0 && !r.revealed && r.champion == Champion(None, 0)
    ensures r.status in {Ready, Error}
    ensures r.status == Error ==> r.unused == s.unused && r.left == s.left && r.right == s.right
    ensures r.status == Ready ==>
      && r.left.Some? && r.right.Some?
      && multiset(r.unused + [r.left.value.password, r.right.value.password]) == multiset(pool)
    ensures |pool| < 2 ==> r.status == Error
  {
    var reset := s.(revealed := false, score := 0, champion := Champion(None, 0));
    var shuffled := Shuffle(pool, swaps);
    match DrawPair(shuffled, lookup)
    case PairFailed(_) => reset.(status := Error)
    case Pair(first, second, rest) =>
      assert multiset(rest + [first.password, second.password]) == multiset(shuffled);
      reset.(left := Some(first), right := Some(second), unused := rest, status := Ready)
  }

  /**
   * `handleGuess(choice)`: ignored unless the status is 'ready' and the
   * counts are hidden; the chosen card wins when its count is not smaller,
   * so on a tie both choices win.
   */
  function HandleGuess(s: State, choice: bool): (r: State)
    ensures s.status != Ready || s.revealed || s.left.None? || s.right.None? ==> r == s
    ensures s.status == Ready && !s.revealed && s.left.Some? && s.right.Some? ==>
      var chosen := if choice then s.left.value else s.right.value;
      var other := if choice then s.right.value else s.left.value;
      && r.revealed
      && (Ge(chosen.count, other.count) ==> r.status == Correct && r.score == s.score + 1)
      && (!Ge(chosen.count, other.count) ==> r.status == GameOverStatus && r.score == s.score)
      && r.unused == s.unused && r.left == s.left && r.right == s.right && r.champion == s.champion
  {
    if s.status != Ready || s.revealed then s
    else
      var chosen := if choice then s.left else s.right;
      var other := if choice then s.right else s.left;
      if chosen.None? || other.None? then s
      else if Ge(chosen.value.count, other.value.count) then
        s.(revealed := true, score := s.score + 1, status := Correct)
      else
        s.(revealed := true, status := GameOverStatus)
  }

  /** Equal counts: guessing either side is correct. */
  lemma TieBothWin(s: State)
    requires s.status == Ready && !s.revealed && s.left.Some? && s.right.Some?
    requires s.left.value.count == s.right.value.count && s.left.value.count.Int?
    ensures HandleGuess(s, true).status == Correct && HandleGuess(s, false).status == Correct
  {
  }

  /** The champion after a round won by `winner`: the streak grows only for the same password. */
  function NextChampion(c: Champion, winner: Card): (n: Champion)
    ensures n.password == Some(winner.password)
    ensures n.streak == if c.password == Some(winner.password) then c.streak + 1 else 1
  {
    if Some(winner.password) == c.password then Champion(Some(winner.password), c.streak + 1)
    else Champion(Some(winner.password), 1)
  }

  /** The winner of the shown pair: the left card unless the right one is strictly larger (or a count is NaN). */
  function Winner(left: Card, right: Card): (w: Card)
    ensures w == left || w == right
    ensures left.count.Int? && right.count.Int? ==>
      w.count.i >= left.count.i && w.count.i >= right.count.i
    ensures left.count == NaN || right.count == NaN ==> w == right
  {
    if Ge(left.count, right.count) then left else right
  }

  /**
   * `advanceRound`: with a champion on its second straight win both cards
   * are redrawn and the champion is cleared; otherwise the winner moves to
   * the left and a new card is drawn for the right. An empty pool ends the
   * game; a failed fetch is an error.
   */
  function AdvanceRound(s: State, lookup: string -> Option<Num>): (r: State)
    ensures s.left.None? || s.right.None? ==> r == s
    ensures s.left.Some? && s.right.Some? ==>
      && !r.revealed && r.score == s.score && r.status in {Ready, GameOverStatus, Error}
      && (r.status != Ready ==> r.unused == s.unused && r.left == s.left && r.right == s.right && r.champion == s.champion)
  {
    if s.left.None? || s.right.None? then s
    else
      var loading := s.(status := Loading, revealed := false);
      var winner := Winner(s.left.value, s.right.value);
      var next := NextChampion(s.champion, winner);
      if next.streak >= 2 then
        match DrawPair(s.unused, lookup)
        case PairFailed(threw) => loading.(status := if threw then Error else GameOverStatus)
        case Pair(first, second, rest) =>
          loading.(champion := Champion(None, 0), left := Some(first), right := Some(second),
                   unused := rest, status := Ready)
      else
        match DrawPassword(s.unused, lookup)
        case Threw => loading.(status := Error)
        case Exhausted => loading.(status := GameOverStatus)
        case Drawn(next', rest) =>
          loading.(champion := next, left := Some(winner), right := Some(next'), unused := rest, status := Ready)
  }

  /** The rotation rule, both branches: what a successful `advanceRound` leaves on screen. */
  lemma AdvanceRoundRule(s: State, lookup: string -> Option<Num>)
    requires s.left.Some? && s.right.Some?
    ensures var r := AdvanceRound(s, lookup);
      var winner := Winner(s.left.value, s.right.value);
      var next := NextChampion(s.champion, winner);
      && (r.status == Ready && next.streak >= 2 ==>
            r.champion == Champion(None, 0)
            && s.unused == r.unused + [r.right.value.password, r.left.value.password])
      && (r.status == Ready && next.streak < 2 ==>
            r.champion == next && r.left == Some(winner)
            && s.unused == r.unused + [r.right.value.password])
      && (|s.unused| == 0 ==> r.status == GameOverStatus)
  {
  }

  /** Ties go to the left card. */
  lemma WinnerOnTieIsLeft(left: Card, right: Card)
    requires left.count == right.count && left.count.Int?
    ensures Winner(left, right) == left
  {
  }

  // ----- no password is shown twice in a session -----

  /** No value occurs twice. */
  ghost predicate NoRepeats(s: seq<string>) {
    forall x :: multiset(s)[x] <= 1
  }

  /** The pool and the two shown cards are all different values. */
  ghost predicate Fresh(s: State) {
    s.left.Some? && s.right.Some? ==> NoRepeats(s.unused + [s.left.value.password, s.right.value.password])
  }

  lemma SubmultisetNoRepeats(a: seq<string>, b: seq<string>)
    requires multiset(a) <= multiset(b) && NoRepeats(b)
    ensures NoRepeats(a)
  {
    forall x
      ensures multiset(a)[x] <= 1
    {
      assert multiset(a)[x] <= multiset(b)[x];
    }
  }

  /**
   * Starting from a pool without repeats, every operation keeps the pool
   * and the two shown values pairwise different; and since the pool only
   * loses values, a value once drawn is never drawn again in the session.
   */
  lemma StartGameFresh(s: State, pool: seq<string>, swaps: seq<int>, lookup: string -> Option<Num>)
    requires ValidSwaps(|pool|, swaps) && NoRepeats(pool)
    requires Fresh(s)
    ensures Fresh(StartGame(s, pool, swaps, lookup))
  {
    var r := StartGame(s, pool, swaps, lookup);
    if r.status == Ready {
      SubmultisetNoRepeats(r.unused + [r.left.value.password, r.right.value.password], pool);
    }
  }

  /** Redrawing both cards: the new pool and cards are exactly the old pool. */
  lemma RedrawFresh(s: State, r: State)
    requires s.left.Some? && s.right.Some? && r.left.Some? && r.right.Some?
    requires s.unused == r.unused + [r.right.value.password, r.left.value.password]
    requires Fresh(s)
    ensures Fresh(r)
  {
    var shown := s.unused + [s.left.value.password, s.right.value.password];
    var after := r.unused + [r.left.value.password, r.right.value.password];
    assert multiset(after) == multiset(s.unused);
    assert multiset(shown) == multiset(s.unused) + multiset{s.left.value.password, s.right.value.password};
    SubmultisetNoRepeats(after, shown);
  }

  /** Keeping one of the shown cards and drawing one new card from the pool. */
  lemma KeepOneFresh(s: State, r: State)
    requires s.left.Some? && s.right.Some? && r.left.Some? && r.right.Some?
    requires r.left == s.left || r.left == s.right
    requires s.unused == r.unused + [r.right.value.password]
    requires Fresh(s)
    ensures Fresh(r)
  {
    var l, rr := s.left.value.password, s.right.value.password;
    var w, n := r.left.value.password, r.right.value.password;
    assert s.unused + [l, rr] == r.unused + [n] + [l, rr];
    KeepOneNoRepeats(r.unused, n, l, rr, w);
  }

  /** Dropping one of two shown values and showing the drawn one instead repeats nothing. */
  lemma KeepOneNoRepeats(rest: seq<string>, n: string, l: string, rr: string, w: string)
    requires w == l || w == rr
    requires NoRepeats(rest + [n] + [l, rr])
    ensures NoRepeats(rest + [w, n])
  {
    var shown, after := rest + [n] + [l, rr], rest + [w, n];
    assert multiset(shown) == multiset(rest) + multiset{n} + multiset{l, rr};
    assert multiset(after) == multiset(rest) + multiset{n} + multiset{w} by {
      assert after == rest + [w] + [n];
    }
    SubmultisetNoRepeats(after, shown);
  }

  /**
   * Starting from a pool without repeats, every operation keeps the pool
   * and the two shown values pairwise different, and the pool only loses
   * values, so no password is shown twice in a session.
   */
  lemma AdvanceRoundFresh(s: State, lookup: string -> Option<Num>)
    requires Fresh(s)
    ensures Fresh(AdvanceRound(s, lookup))
  {
    if s.left.Some? && s.right.Some? {
      var a := AdvanceRound(s, lookup);
      AdvanceRoundRule(s, lookup);
      if a.status == Ready {
        var winner := Winner(s.left.value, s.right.value);
        if NextChampion(s.champion, winner).streak >= 2 {
          RedrawFresh(s, a);
        } else {
          KeepOneFresh(s, a);
        }
      }
    }
  }

  /** The pool only ever loses values. */
  lemma AdvanceRoundShrinks(s: State, lookup: string -> Option<Num>)
    ensures multiset(AdvanceRound(s, lookup).unused) <= multiset(s.unused)
  {
    if s.left.Some? && s.right.Some? {
      AdvanceRoundRule(s, lookup);
    }
  }

  /**
   * Starting from a pool without repeats, every operation keeps the pool
   * and the two shown values pairwise different, and the pool only loses
   * values, so no password is shown twice in a session.
   */
  lemma FreshPreserved(s: State, pool: seq<string>, swaps: seq<int>, lookup: string -> Option<Num>, choice: bool)
    requires ValidSwaps(|pool|, swaps) && NoRepeats(pool)
    requires Fresh(s)
    ensures Fresh(StartGame(s, pool, swaps, lookup))
    ensures Fresh(HandleGuess(s, choice))
    ensures Fresh(AdvanceRound(s, lookup))
    ensures multiset(AdvanceRound(s, lookup).unused) <= multiset(s.unused)
  {
    StartGameFresh(s, pool, swaps, lookup);
    AdvanceRoundFresh(s, lookup);
    AdvanceRoundShrinks(s, lookup);
  }

  /** The prototype's pool of 34 passwords. */
  const PasswordPool: seq<string> := [
    "123456", "password", "123456789", "qwerty", "12345678", "111111",
    "123123", "abc123", "12345", "admin", "letmein", "welcome", "monkey",
    "dragon", "football", "iloveyou", "sunshine", "princess", "password1",
    "qwerty123", "shadow", "master", "666666", "1234", "baseball",
    "trustno1", "superman", "pokemon", "asdfghjkl", "1q2w3e4r", "zaq12wsx",
    "login", "passw0rd", "654321"]

  /** With a lookup that never fails, `startGame` on the prototype's pool always reaches 'ready'. */
  lemma StartGameReady(s: State, swaps: seq<int>, lookup: string -> Option<Num>)
    requires ValidSwaps(|PasswordPool|, swaps)
    requires forall p :: lookup(p).Some?
    ensures StartGame(s, PasswordPool, swaps, lookup).status == Ready
  {
    PoolSize();
    StartGameReadyFor(s, PasswordPool, swaps, lookup);
  }

  lemma PoolSize()
    ensures |PasswordPool| == 34
  {
  }

  /** Any pool of two or more passwords, with a lookup that never fails, reaches 'ready'. */
  lemma StartGameReadyFor(s: State, pool: seq<string>, swaps: seq<int>, lookup: string -> Option<Num>)
    requires ValidSwaps(|pool|, swaps) && |pool| >= 2
    requires forall p :: lookup(p).Some?
    ensures StartGame(s, pool, swaps, lookup).status == Ready
  {
    var shuffled := Shuffle(pool, swaps);
    assert lookup(shuffled[|shuffled| - 1]).Some? && lookup(shuffled[|shuffled| - 2]).Some?;
    assert DrawPair(shuffled, lookup).Pair?;
  }
}
