/**
 * The game engine of models.js: the classes `Player` (with the `AiPlayer`
 * subclass folded in) and `Game`.  Both keep their state in fields that the
 * methods update in place; the meaning of each update is stated with the
 * board functions of module Board.
 *
 * The global `game` that `AiPlayer` reads is an explicit `Game` parameter
 * here, `Math.random()` is a nondeterministic choice of an index, and the
 * `async` chain "drop, check, advance, let the next AI move" runs as a loop
 * (`RunAiTurns`) instead of nested awaits.
 */
module Models {
  import opened WinLines
  import opened Board
  import Hash

  /**
   * What `dropPiece` returns: `undefined` when the game has ended (Ended),
   * `false` when the column is full (Full), `true` once a piece is placed,
   * whether or not that move ended the game (Placed).
   */
  datatype DropResult = Ended | Full | Placed {
    /** How JavaScript's `if (...)` reads the result. */
    predicate Truthy() { Placed? }
  }

  /** The non-random branch of `_updateCurrPlayer`. */
  function NextIndex(i: int, n: int): (j: int)
    ensures j == 0 || j == i + 1
    ensures 0 <= i < n ==> 0 <= j < n
  {
    if i >= n - 1 then 0 else i + 1
  }

  /** For an index on the roster the advance is the successor modulo the roster size. */
  lemma NextIndexIsSuccessorModulo(i: int, n: int)
    requires 0 <= i < n
    ensures NextIndex(i, n) == (i + 1) % n
    ensures 0 <= NextIndex(i, n) < n
  {
  }

  /** `k` advances in a row from index `i`. */
  function Advance(i: int, n: int, k: nat): int
  {
    if k == 0 then i else NextIndex(Advance(i, n, k - 1), n)
  }

  /** Within one round the advances count up from `i` and wrap once past the last index. */
  lemma {:induction false} AdvanceWithinRound(i: int, n: int, k: nat)
    requires 0 <= i < n && k < n
    ensures Advance(i, n, k) == if i + k < n then i + k else i + k - n
  {
    if k > 0 {
      AdvanceWithinRound(i, n, k - 1);
    }
  }

  /** The indices that come up in the first n advances from `i`. */
  function Turns(i: int, n: int): set<int>
  {
    set k | 0 <= k < n :: Advance(i, n, k)
  }

  /**
   * Round robin: in n advances from any index on the roster every index comes
   * up exactly once, and then the turn is back where it started.
   */
  lemma RoundRobin(i: int, n: int)
    requires 0 <= i < n
    ensures Advance(i, n, n) == i
    ensures forall j :: j in Turns(i, n) <==> 0 <= j < n
    ensures forall k1, k2 :: 0 <= k1 < k2 < n ==> Advance(i, n, k1) != Advance(i, n, k2)
  {
    AdvanceWithinRound(i, n, n - 1);
    assert Advance(i, n, n) == NextIndex(Advance(i, n, n - 1), n);
    var turns := Turns(i, n);
    forall j | 0 <= j < n ensures j in turns {
      var k := if j >= i then j - i else j + n - i;
      AdvanceWithinRound(i, n, k);
    }
    forall j | j in turns ensures 0 <= j < n {
      var k :| 0 <= k < n && Advance(i, n, k) == j;
      AdvanceWithinRound(i, n, k);
    }
    forall k1, k2 | 0 <= k1 < k2 < n ensures Advance(i, n, k1) != Advance(i, n, k2) {
      AdvanceWithinRound(i, n, k1);
      AdvanceWithinRound(i, n, k2);
    }
  }

  /**
   * Log entry `p` was placed by the player `p - from` advances after index
   * `i0`, and that player is an AI.
   */
  ghost predicate AiEntry(s: Grid, log: seq<Coord>, from: nat, players: seq<Player>, i0: int, p: int)
  {
    && from <= p < |log|
    && var i := Advance(i0, |players|, p - from);
       0 <= i < |players| && players[i].isAi && Holds(s, log[p], players[i].id)
  }

  /** The log past position `from` holds `moves` pieces, each an AI's drop in turn order from index `i0`. */
  ghost predicate AiChain(s: Grid, log: seq<Coord>, from: nat, players: seq<Player>, i0: int, moves: nat)
  {
    && |log| == from + moves
    && forall p :: from <= p < |log| ==> AiEntry(s, log, from, players, i0, p)
  }

  /** One more AI drop extends the chain; the earlier pieces stay where they are. */
  lemma AiChainStep(s1: Grid, log1: seq<Coord>, s2: Grid, c: Coord, from: nat,
                    players: seq<Player>, i0: int, m: nat)
    requires AiChain(s1, log1, from, players, i0, m) && Grows(s1, s2)
    requires 0 <= Advance(i0, |players|, m) < |players|
    requires players[Advance(i0, |players|, m)].isAi && Holds(s2, c, players[Advance(i0, |players|, m)].id)
    ensures AiChain(s2, log1 + [c], from, players, i0, m + 1)
  {
    var log2 := log1 + [c];
    forall p | from <= p < |log2|
      ensures AiEntry(s2, log2, from, players, i0, p)
    {
      if p < |log1| {
        var q := log1[p];
        assert AiEntry(s1, log1, from, players, i0, p);
        assert log2[p] == q;
        assert s2[q.row][q.col] == s1[q.row][q.col];
      } else {
        assert p - from == m && log2[p] == c;
      }
    }
  }

  /** The player `k` advances after index `i0` holds no coord set on board `s` with log `log`. */
  ghost predicate ChainAiLost(s: Grid, log: seq<Coord>, players: seq<Player>, i0: int, k: nat)
  {
    var i := Advance(i0, |players|, k);
    0 <= i < |players| ==> !Wins(s, log, players[i].id)
  }

  /** None of the first `m` movers of the chain from index `i0` holds a coord set. */
  ghost predicate NoChainWin(s: Grid, log: seq<Coord>, players: seq<Player>, i0: int, m: nat)
  {
    forall k: nat :: k < m ==> ChainAiLost(s, log, players, i0, k)
  }

  /**
   * A drop at the landing row by the `m`-th mover of the chain that does not
   * win for that mover leaves every earlier mover without a win as well: a
   * piece completes coord sets of its own player only.
   */
  lemma NoChainWinStep(s1: Grid, log1: seq<Coord>, s2: Grid, log2: seq<Coord>, width: int, height: int,
                       r: int, col: int, players: seq<Player>, i0: int, m: nat)
    requires Anchored(s1, log1, width, height)
    requires InBounds(Coord(r, col), width, height) && s1[r][col].value.None?
    requires NoChainWin(s1, log1, players, i0, m)
    requires 0 <= Advance(i0, |players|, m) < |players|
    requires s2 == Place(s1, r, col, players[Advance(i0, |players|, m)].id) && log2 == log1 + [Coord(r, col)]
    requires !Wins(s2, log2, players[Advance(i0, |players|, m)].id)
    ensures NoChainWin(s2, log2, players, i0, m + 1)
  {
    var id := players[Advance(i0, |players|, m)].id;
    forall k: nat | k < m + 1
      ensures ChainAiLost(s2, log2, players, i0, k)
    {
      if k < m {
        assert ChainAiLost(s1, log1, players, i0, k);
        MoverLostAfterDrop(s1, log1, width, height, r, col, players, i0, k, id);
      }
    }
  }

  /** One earlier mover of the chain: a drop by `id` that is no win for `id` gives that mover no win. */
  lemma MoverLostAfterDrop(s1: Grid, log1: seq<Coord>, width: int, height: int, r: int, col: int,
                           players: seq<Player>, i0: int, k: nat, id: string)
    requires Anchored(s1, log1, width, height)
    requires InBounds(Coord(r, col), width, height) && s1[r][col].value.None?
    requires ChainAiLost(s1, log1, players, i0, k)
    requires !Wins(Place(s1, r, col, id), log1 + [Coord(r, col)], id)
    ensures ChainAiLost(Place(s1, r, col, id), log1 + [Coord(r, col)], players, i0, k)
  {
    var i := Advance(i0, |players|, k);
    if 0 <= i < |players| && players[i].id != id {
      DropKeepsOthersLost(s1, log1, width, height, r, col, id, players[i].id);
    }
  }

  /** The `k`-th drop of the chain was made by the AI `k` advances after `i0`. */
  lemma ChainAt(s: Grid, log: seq<Coord>, from: nat, players: seq<Player>, i0: int, moves: nat, k: nat)
    requires AiChain(s, log, from, players, i0, moves) && k < moves
    ensures 0 <= Advance(i0, |players|, k) < |players| && players[Advance(i0, |players|, k)].isAi
    ensures Holds(s, log[from + k], players[Advance(i0, |players|, k)].id)
  {
    assert AiEntry(s, log, from, players, i0, from + k);
    assert (from + k) - from == k;
  }

  // ---------------------------------------------------------------------
  // Subsequences: what the AI's column list and the roster keep

  /** `a` is `b` with some elements left out, the rest in their order. */
  predicate IsSubsequence<T(==)>(a: seq<T>, b: seq<T>)
    decreases |b|
  {
    if a == [] then true
    else if b == [] then false
    else if a[0] == b[0] then IsSubsequence(a[1..], b[1..])
    else IsSubsequence(a, b[1..])
  }

  lemma {:induction false} SubsequenceReflexive<T>(a: seq<T>)
    ensures IsSubsequence(a, a)
  {
    if a != [] {
      SubsequenceReflexive(a[1..]);
    }
  }

  /** One more element in front of the longer sequence keeps a subsequence. */
  lemma {:induction false} SubsequenceCons<T>(a: seq<T>, x: T, b: seq<T>)
    requires IsSubsequence(a, b)
    ensures IsSubsequence(a, [x] + b)
    decreases |b|, 1
  {
    assert ([x] + b)[1..] == b;
    if a != [] && a[0] == x {
      SubsequenceTail(a, b);
    }
  }

  /** Dropping the first element of the shorter sequence keeps a subsequence. */
  lemma {:induction false} SubsequenceTail<T>(a: seq<T>, b: seq<T>)
    requires IsSubsequence(a, b) && a != []
    ensures IsSubsequence(a[1..], b)
    decreases |b|, 0
  {
    assert b != [];
    assert [b[0]] + b[1..] == b;
    if a[0] == b[0] {
      SubsequenceCons(a[1..], b[0], b[1..]);
    } else {
      SubsequenceTail(a, b[1..]);
      SubsequenceCons(a[1..], b[0], b[1..]);
    }
  }

  lemma {:induction false} SubsequenceMembers<T>(a: seq<T>, b: seq<T>)
    requires IsSubsequence(a, b)
    ensures forall x :: x in a ==> x in b
    ensures |a| <= |b|
    decreases |b|
  {
    if a != [] && b != [] {
      if a[0] == b[0] {
        SubsequenceMembers(a[1..], b[1..]);
        assert forall x :: x in a ==> x == a[0] || x in a[1..];
      } else {
        SubsequenceMembers(a, b[1..]);
      }
    }
  }

  lemma {:induction false} SubsequenceTransitive<T>(a: seq<T>, b: seq<T>, c: seq<T>)
    requires IsSubsequence(a, b) && IsSubsequence(b, c)
    ensures IsSubsequence(a, c)
    decreases |c|
  {
    if a != [] && c != [] {
      assert b != [];
      if b[0] == c[0] {
        if a[0] == b[0] {
          SubsequenceTransitive(a[1..], b[1..], c[1..]);
        } else {
          SubsequenceTransitive(a, b[1..], c[1..]);
        }
      } else {
        SubsequenceTransitive(a, b, c[1..]);
        if a[0] == c[0] {
          SubsequenceTail(a, c[1..]);
        }
      }
    }
  }

  /** `s.splice(k, 1)`: exactly the entry at `k` goes, the others keep their order. */
  lemma {:induction false} SpliceIsSubsequence<T>(s: seq<T>, k: int)
    requires 0 <= k < |s|
    ensures IsSubsequence(s[..k] + s[k + 1..], s)
    ensures forall x :: x in s && x != s[k] ==> x in s[..k] + s[k + 1..]
    ensures forall x :: x in s[..k] + s[k + 1..] ==> x in s
  {
    var t := s[..k] + s[k + 1..];
    if k == 0 {
      assert t == s[1..];
      SubsequenceReflexive(s[1..]);
      SubsequenceCons(s[1..], s[0], s[1..]);
      assert [s[0]] + s[1..] == s;
    } else {
      SpliceIsSubsequence(s[1..], k - 1);
      assert s[1..][..k - 1] + s[1..][k..] == t[1..];
      assert t[0] == s[0];
    }
    forall x | x in s && x != s[k] ensures x in t {
      var i :| 0 <= i < |s| && s[i] == x;
      if i < k {
        assert t[i] == x;
      } else {
        assert t[i - 1] == x;
      }
    }
  }

  // ---------------------------------------------------------------------
  // `removePlayer`

  /**
   * The roster `removePlayer(playerId)` leaves: the loop splices out a
   * matching player and then steps past the player that moved into its slot,
   * so that player is kept whatever its id.
   */
  function RemoveAsWritten(players: seq<Player>, playerId: string): (kept: seq<Player>)
    ensures |kept| <= |players|
    ensures forall q :: q in kept ==> q in players
  {
    if players == [] then []
    else if players[0].id == playerId then
      (if |players| == 1 then [] else [players[1]] + RemoveAsWritten(players[2..], playerId))
    else [players[0]] + RemoveAsWritten(players[1..], playerId)
  }

  /** The reference definition: every player whose id differs, in order. */
  function WithoutId(players: seq<Player>, playerId: string): seq<Player>
  {
    if players == [] then []
    else (if players[0].id == playerId then [] else [players[0]]) + WithoutId(players[1..], playerId)
  }

  function CountId(players: seq<Player>, playerId: string): nat
  {
    if players == [] then 0
    else (if players[0].id == playerId then 1 else 0) + CountId(players[1..], playerId)
  }

  /** `removePlayer` keeps every non-matching player, in order, and adds no one. */
  lemma {:induction false} RemoveKeepsOthers(players: seq<Player>, playerId: string)
    ensures IsSubsequence(WithoutId(players, playerId), RemoveAsWritten(players, playerId))
    ensures IsSubsequence(RemoveAsWritten(players, playerId), players)
  {
    if players != [] {
      var w := WithoutId(players, playerId);
      var r := RemoveAsWritten(players, playerId);
      if players[0].id == playerId {
        if |players| > 1 {
          var tail := players[2..];
          RemoveKeepsOthers(tail, playerId);
          var rest := RemoveAsWritten(tail, playerId);
          assert players[1..][0] == players[1] && players[1..][1..] == tail;
          assert players[1..] == [players[1]] + tail;
          assert r == [players[1]] + rest && r[1..] == rest;
          if players[1].id == playerId {
            assert w == WithoutId(tail, playerId);
            SubsequenceCons(w, players[1], rest);
          } else {
            assert w == [players[1]] + WithoutId(tail, playerId);
            assert w[1..] == WithoutId(tail, playerId);
          }
          SubsequenceCons(rest, players[1], tail);
          if players[0] != players[1] {
            assert IsSubsequence(r, players[1..]);
          }
        }
      } else {
        RemoveKeepsOthers(players[1..], playerId);
        assert r[1..] == RemoveAsWritten(players[1..], playerId);
        assert w[1..] == WithoutId(players[1..], playerId);
      }
    }
  }

  /**
   * The roster `removePlayer` will leave when its loop is at index `i` of the
   * current roster `players` (past the end after a removal at the last slot).
   */
  function Pending(players: seq<Player>, i: int, playerId: string): seq<Player>
  {
    if 0 <= i <= |players| then players[..i] + RemoveAsWritten(players[i..], playerId) else players
  }

  lemma RemoveStep(players: seq<Player>, i: int, playerId: string)
    requires 0 <= i < |players| && players[i].id == playerId
    ensures Pending(players[..i] + players[i + 1..], i + 1, playerId) == Pending(players, i, playerId)
  {
    var t := players[..i] + players[i + 1..];
    assert players[i..][0] == players[i];
    if i + 1 < |players| {
      assert t[..i + 1] == players[..i] + [players[i + 1]];
      assert t[i + 1..] == players[i + 2..];
      assert players[i..][1] == players[i + 1];
      assert players[i..][2..] == players[i + 2..];
    } else {
      assert t == players[..i];
    }
  }

  /** Once the loop is past the last player nothing is pending. */
  lemma PendingAtEnd(players: seq<Player>, i: int, playerId: string)
    requires |players| <= i
    ensures Pending(players, i, playerId) == players
  {
    if i == |players| {
      assert players[..i] == players && players[i..] == [];
    }
  }

  lemma KeepStep(players: seq<Player>, i: int, playerId: string)
    requires 0 <= i < |players| && players[i].id != playerId
    ensures Pending(players, i + 1, playerId) == Pending(players, i, playerId)
  {
    assert players[..i + 1] == players[..i] + [players[i]];
    assert players[i..][0] == players[i];
    assert players[i..][1..] == players[i + 1..];
  }

  /** With at most one player of that id, exactly that player is removed. */
  lemma {:induction false} RemoveSingleMatch(players: seq<Player>, playerId: string)
    requires CountId(players, playerId) <= 1
    ensures RemoveAsWritten(players, playerId) == WithoutId(players, playerId)
  {
    if players != [] {
      if players[0].id == playerId {
        NoMatchUnchanged(players[1..], playerId);
        if |players| > 1 {
          assert players[1..][0] == players[1] && players[1..][1..] == players[2..];
          NoMatchUnchanged(players[2..], playerId);
        }
      } else {
        RemoveSingleMatch(players[1..], playerId);
      }
    }
  }

  lemma {:induction false} NoMatchUnchanged(players: seq<Player>, playerId: string)
    requires CountId(players, playerId) == 0
    ensures RemoveAsWritten(players, playerId) == players == WithoutId(players, playerId)
  {
    if players != [] {
      NoMatchUnchanged(players[1..], playerId);
      assert players[0].id != playerId;
      assert RemoveAsWritten(players, playerId) == [players[0]] + RemoveAsWritten(players[1..], playerId);
      assert WithoutId(players, playerId) == [players[0]] + WithoutId(players[1..], playerId);
      assert [players[0]] + players[1..] == players;
    }
  }

  /** The skip: of two adjacent players with the removed id, the second stays. */
  lemma RemoveSkipsNeighbour(a: Player, b: Player, playerId: string)
    requires a.id == playerId && b.id == playerId
    ensures RemoveAsWritten([a, b], playerId) == [b]
    ensures WithoutId([a, b], playerId) == []
  {
    assert [a, b][2..] == [];
    assert [a, b][1..] == [b];
    assert [b][1..] == [];
    assert WithoutId([b], playerId) == [] + WithoutId([], playerId);
  }

  // ---------------------------------------------------------------------
  // The AI player's candidate columns

  /** `cols` lists board columns only and every column whose top cell is free. */
  predicate CoversOpenColumns(s: Grid, width: int, cols: seq<int>)
  {
    && (forall k :: 0 <= k < |cols| ==> 0 <= cols[k] < width)
    && (forall c :: 0 <= c < width && !ColumnFull(s, c) ==> c in cols)
  }

  /** The candidate list of a fresh game: 0, 1, …, width - 1. */
  predicate AllColumns(cols: seq<int>, width: int)
  {
    |cols| == width && forall k :: 0 <= k < |cols| ==> cols[k] == k
  }

  lemma AllColumnsCover(s: Grid, width: int, cols: seq<int>)
    requires AllColumns(cols, width)
    ensures CoversOpenColumns(s, width, cols)
  {
    forall c | 0 <= c < width ensures c in cols {
      assert cols[c] == c;
    }
  }

  /** Occupied cells keep their contents from `s` to `t`. */
  predicate Grows(s: Grid, t: Grid)
  {
    && |t| == |s|
    && (forall y :: 0 <= y < |s| ==> |t[y]| == |s[y]|)
    && (forall y, x :: 0 <= y < |s| && 0 <= x < |s[y]| && s[y][x].value.Some? ==> t[y][x] == s[y][x])
  }

  lemma GrowsTransitive(s: Grid, t: Grid, u: Grid)
    requires Grows(s, t) && Grows(t, u)
    ensures Grows(s, u)
  {
  }

  /** A column that is full stays full while the board grows. */
  lemma GrowsKeepsCover(s: Grid, t: Grid, width: int, cols: seq<int>)
    requires Grows(s, t) && CoversOpenColumns(s, width, cols)
    ensures CoversOpenColumns(t, width, cols)
    ensures forall c :: ColumnFull(s, c) ==> ColumnFull(t, c)
  {
    forall c | ColumnFull(s, c) ensures ColumnFull(t, c) {
      assert s[0][c].value.Some?;
    }
  }

  /** Splicing out a full column keeps the candidates covering the open columns. */
  lemma SpliceKeepsCover(s: Grid, width: int, cols: seq<int>, k: int)
    requires 0 <= k < |cols| && ColumnFull(s, cols[k]) && CoversOpenColumns(s, width, cols)
    ensures CoversOpenColumns(s, width, cols[..k] + cols[k + 1..])
  {
    var t := cols[..k] + cols[k + 1..];
    SpliceIsSubsequence(cols, k);
    forall i | 0 <= i < |t| ensures 0 <= t[i] < width {
      assert t[i] in cols;
    }
  }

  /**
   * After a failed attempt at `cols[k]` and the retry on the spliced list,
   * the final list is still a subsequence of `cols`, and every column it
   * lost was full.
   */
  lemma RetryKeepsCandidates(s: Grid, cols: seq<int>, k: int, final: seq<int>)
    requires 0 <= k < |cols| && ColumnFull(s, cols[k])
    requires IsSubsequence(final, cols[..k] + cols[k + 1..])
    requires forall c :: c in cols[..k] + cols[k + 1..] && c !in final ==> ColumnFull(s, c)
    ensures IsSubsequence(final, cols)
    ensures forall c :: c in cols && c !in final ==> ColumnFull(s, c)
    ensures forall c :: c in cols[..k] + cols[k + 1..] ==> c in cols
  {
    var spliced := cols[..k] + cols[k + 1..];
    SpliceIsSubsequence(cols, k);
    SubsequenceTransitive(final, spliced, cols);
    forall c | c in cols && c !in final ensures ColumnFull(s, c) {
      if c != cols[k] {
        assert c in spliced;
      }
    }
  }

  lemma PlaceGrows(s: Grid, y: int, x: int, id: string)
    requires InGrid(s, Coord(y, x)) && s[y][x].value.None?
    ensures Grows(s, Place(s, y, x, id))
  {
  }

  // ---------------------------------------------------------------------

  /**
   * `Player` and its subclass `AiPlayer`: `isAi` stands for
   * `instanceof AiPlayer`, and `availCols` is the AiPlayer's list of columns
   * still worth trying (unused for a human).
   */
  class Player {
    const name: string
    const color: string
    const id: string
    const isAi: bool
    var availCols: seq<int>

    /** `new Player(name, color)`: the id is the hash of the name. */
    constructor Human(name: string, color: string)
      ensures this.name == name && this.color == color && !isAi
      ensures id == Hash.ToHex(Hash.HashValue(name))
      ensures availCols == []
    {
      var h := Hash.GenerateMD5HashHex(name);
      this.name := name;
      this.color := color;
      this.isAi := false;
      this.id := h;
      this.availCols := [];
    }

    /** `new AiPlayer(name, color)`: no candidate columns until `newGame`. */
    constructor Ai(name: string, color: string)
      ensures this.name == name && this.color == color && isAi
      ensures id == Hash.ToHex(Hash.HashValue(name))
      ensures availCols == []
    {
      var h := Hash.GenerateMD5HashHex(name);
      this.name := name;
      this.color := color;
      this.isAi := true;
      this.id := h;
      this.availCols := [];
    }

    /** `_aiInitAvailCols()`: the columns 0, 1, …, width - 1 in order. */
    method AiInitAvailCols(game: Game) returns (cols: seq<int>)
      ensures |cols| == game.width
      ensures forall i :: 0 <= i < |cols| ==> cols[i] == i
    {
      cols := [];
      var startCol := 0;
      while startCol < game.width
        invariant 0 <= startCol <= game.width
        invariant |cols| == startCol
        invariant forall i :: 0 <= i < |cols| ==> cols[i] == i
      {
        cols := cols + [startCol];
        startCol := startCol + 1;
      }
    }

    /** `newGame()`: every column is a candidate again. */
    method NewGame(game: Game)
      modifies this
      ensures AllColumns(availCols, game.width)
    {
      availCols := AiInitAvailCols(game);
    }

    /**
     * `takeTurn()`: the AI's move when the game hands it the turn.  The AI
     * drops into one of its candidate columns, with the end check and the
     * turn advance of `dropPiece`; the board and the candidate lists stay
     * consistent, and the board grows by exactly one cell.
     */
    method TakeTurn(game: Game)
      requires game.Ready() && game.AiReady()
      requires game.CurrentAiToMove() && game.currPlayer == this
      requires game.height >= 1 && !TopRowFull(game.state)
      modifies this, game
      ensures game.Ready() && game.AiReady()
      ensures game.players == old(game.players) && game.gameStarted == old(game.gameStarted)
      ensures game.CurrentAiToMove() ==> !TopRowFull(game.state)
      ensures Grows(old(game.state), game.state)
      ensures |game.placedPieces| == |old(game.placedPieces)| + 1
      ensures game.placedPieces[..|old(game.placedPieces)|] == old(game.placedPieces)
      ensures OpenCells(game.state, game.width, game.height) < old(OpenCells(game.state, game.width, game.height))
      ensures var col := game.placedPieces[|old(game.placedPieces)|].col;
              && col in old(availCols)
              && game.DroppedFrom(old(game.state), old(game.placedPieces), old(game.currPlayerIndex),
                                  old(game.currPlayer), col)
      ensures old(game.TurnValid()) ==> game.TurnValid()
    {
      assert this in game.players && |game.players| > 0;
      ghost var s0, index0, current0 := game.state, game.currPlayerIndex, game.currPlayer;
      label before:
      AiDropPiece(game);
      ghost var col := game.placedPieces[|old(game.placedPieces)|].col;
      assert game.DroppedFrom(s0, old(game.placedPieces), index0, current0, col);
      assert game.gameEnded ==> game.currPlayerIndex == index0 && game.currPlayer == current0;
      forall q | q in game.players && q.isAi ensures CoversOpenColumns(game.state, game.width, q.availCols) {
        if q != this {
          assert q.availCols == old@before(q.availCols);
          GrowsKeepsCover(s0, game.state, game.width, q.availCols);
        }
      }
    }

    /**
     * `_aiDropPiece()`: pick a random candidate column and drop there; on a
     * falsy answer splice that candidate out and try again.  The caller
     * guarantees what the source relies on: the game is on, some column is
     * open, and every open column is still a candidate.
     */
    method AiDropPiece(game: Game)
      requires game.Ready() && !game.gameEnded && game.currPlayer != null && |game.players| > 0
      requires game.height >= 1 && !TopRowFull(game.state)
      requires CoversOpenColumns(game.state, game.width, availCols)
      modifies this, game
      ensures game.Ready()
      ensures game.players == old(game.players) && game.gameStarted == old(game.gameStarted)
      ensures |game.placedPieces| == |old(game.placedPieces)| + 1
      ensures game.placedPieces[..|old(game.placedPieces)|] == old(game.placedPieces)
      ensures var col := game.placedPieces[|old(game.placedPieces)|].col;
              && col in old(availCols) && col in availCols
              && game.DroppedFrom(old(game.state), old(game.placedPieces), old(game.currPlayerIndex),
                                  old(game.currPlayer), col)
      ensures IsSubsequence(availCols, old(availCols))
      ensures forall c :: c in old(availCols) && c !in availCols ==> ColumnFull(old(game.state), c)
      ensures Grows(old(game.state), game.state)
      ensures CoversOpenColumns(game.state, game.width, availCols)
      ensures OpenCells(game.state, game.width, game.height) < old(OpenCells(game.state, game.width, game.height))
      ensures !game.gameEnded ==> !TopRowFull(game.state) && game.currPlayer != null && game.currPlayer in game.players
      decreases |availCols|
    {
      assert |availCols| > 0 by {
        var x :| 0 <= x < |game.state[0]| && game.state[0][x].value.None?;
        assert !ColumnFull(game.state, x);
      }
      var colToAttempt :| 0 <= colToAttempt < |availCols|;
      ghost var s0 := game.state;
      var result := game.DropPieceOnce(availCols[colToAttempt]);
      if result.Truthy() {
        ghost var col := availCols[colToAttempt];
        ghost var r := LandingRow(s0, game.width, game.height, col).value;
        LandingIsLowestEmpty(s0, game.width, game.height, col);
        PlaceShrinksOpen(s0, game.width, game.height, r, col, old(game.currPlayer).id);
        SubsequenceReflexive(availCols);
        GrowsKeepsCover(old(game.state), game.state, game.width, availCols);
        return;
      }
      assert ColumnFull(s0, availCols[colToAttempt]) && game.state == s0;
      SpliceKeepsCover(s0, game.width, availCols, colToAttempt);
      availCols := availCols[..colToAttempt] + availCols[colToAttempt + 1..];
      AiDropPiece(game);
      RetryKeepsCandidates(s0, old(availCols), colToAttempt, availCols);
    }
  }

  // ---------------------------------------------------------------------

  /** `Game`: the board, the roster, the turn and the end flag. */
  class Game {
    const width: nat
    const height: nat
    var players: seq<Player>
    var placedPieces: seq<Coord>
    var gameStarted: bool
    var gameEnded: bool
    /** The board matrix; `undefined` before the first `startGame`, here empty. */
    var state: Grid
    var currPlayerIndex: nat
    var currPlayer: Player?

    /** `new Game(width, height)`, 7 by 6 when the arguments are left out. */
    constructor (width: nat := 7, height: nat := 6)
      ensures this.width == width && this.height == height
      ensures players == [] && placedPieces == [] && !gameStarted && !gameEnded
      ensures state == [] && currPlayer == null && currPlayerIndex == 0
    {
      this.width := width;
      this.height := height;
      players := [];
      placedPieces := [];
      gameStarted := false;
      gameEnded := false;
      state := [];
      currPlayerIndex := 0;
      currPlayer := null;
    }

    /** The board has been built and is consistent with the log of placed pieces. */
    predicate Ready()
      reads this
    {
      BoardInvariant(state, placedPieces, width, height)
    }

    /** It is an AI player's turn in a running game. */
    predicate CurrentAiToMove()
      reads this
    {
      !gameEnded && currPlayer != null && currPlayer.isAi
    }

    /**
     * A piece of the player on move dropped into `col` would fill the top row
     * or complete one of that player's coord sets, so `_checkForGameEnd`
     * would end the game before `_updateCurrPlayer` reads the roster.
     */
    ghost predicate MoveEnds(col: int)
      reads this
    {
      && currPlayer != null && height >= 1 && 0 <= col < width && Shaped(state, width, height)
      && LandingRow(state, width, height, col).Some?
      && var r := LandingRow(state, width, height, col).value;
         && InGrid(state, Coord(r, col))
         && var t := Place(state, r, col, currPlayer.id);
            TopRowFull(t) || Wins(t, placedPieces + [Coord(r, col)], currPlayer.id)
    }

    /**
     * Every AI on the roster can still find every open column among its
     * candidates, and an AI on move is on the roster.
     */
    ghost predicate AiReady()
      reads this, set p | p in players
    {
      && (forall p :: p in players && p.isAi ==> CoversOpenColumns(state, width, p.availCols))
      && (CurrentAiToMove() ==> currPlayer in players)
    }

    /**
     * The fields after a successful drop into `col`, starting from board `s0`,
     * log `placed0`, turn index `index0` and current player `current0`: the
     * piece sits on the landing row, the log has grown by that cell, and
     * `_checkForGameEnd` has either ended the game (a full top row, or four
     * of the mover's pieces in a coord set; the turn is kept) or advanced the
     * turn.
     */
    ghost predicate DroppedFrom(s0: Grid, placed0: seq<Coord>, index0: int, current0: Player?, col: int)
      reads this
    {
      && current0 != null
      && height >= 1 && 0 <= col < width && Shaped(s0, width, height)
      && LandingRow(s0, width, height, col).Some?
      && var r := LandingRow(s0, width, height, col).value;
         && InGrid(s0, Coord(r, col))
         && state == Place(s0, r, col, current0.id)
         && placedPieces == placed0 + [Coord(r, col)]
         && |state| > 0
         && gameEnded == (TopRowFull(state) || Wins(state, placedPieces, current0.id))
         && (gameEnded ==> currPlayerIndex == index0 && currPlayer == current0)
         && (!gameEnded ==> currPlayerIndex == NextIndex(index0, |players|) &&
                            0 <= currPlayerIndex < |players| && currPlayer == players[currPlayerIndex])
    }

    /** The turn index is on the roster and names the current player. */
    predicate TurnValid()
      reads this
    {
      0 <= currPlayerIndex < |players| && currPlayer == players[currPlayerIndex]
    }

    /**
     * The fields after a chain of AI turns that began with the log at length
     * `from` and the turn at index `i0`: each new log entry is one drop by
     * the AI on move, the turn advanced once per drop that did not end the
     * game, and the chain stopped either because the last drop filled the
     * top row or completed a coord set of its AI, or because neither
     * happened and the player now on move is not an AI.  No AI of the chain
     * holds a coord set while the game runs, and when the last drop ended
     * it, none of the earlier ones held one on the board before that drop.
     */
    ghost predicate AiTurnsFrom(from: nat, i0: int)
      reads this
    {
      ChainInTurn(from, i0) && ChainUnwon(from, i0)
    }

    /** The order part of `AiTurnsFrom`: who dropped each piece, where the turn is, why the chain stopped. */
    ghost predicate ChainInTurn(from: nat, i0: int)
      reads this
    {
      && from <= |placedPieces|
      && var moves := |placedPieces| - from;
         && AiChain(state, placedPieces, from, players, i0, moves)
         && TurnValid()
         && (moves > 0 ==> |state| > 0 && 0 <= Advance(i0, |players|, moves - 1) < |players|)
         && (gameEnded && moves > 0 ==>
               currPlayerIndex == Advance(i0, |players|, moves - 1) && currPlayer.isAi &&
               (TopRowFull(state) || Wins(state, placedPieces, currPlayer.id)))
         && (!gameEnded ==>
               currPlayerIndex == Advance(i0, |players|, moves) &&
               (moves > 0 ==> !TopRowFull(state) &&
                              !Wins(state, placedPieces, players[Advance(i0, |players|, moves - 1)].id)))
    }

    /**
     * The win part of `AiTurnsFrom`: while the game runs no mover of the chain
     * holds a coord set; once its last drop ended the game, none of the
     * earlier movers held one on the board before that drop.
     */
    ghost predicate ChainUnwon(from: nat, i0: int)
      reads this
    {
      && from <= |placedPieces|
      && var moves := |placedPieces| - from;
         && (!gameEnded ==> NoChainWin(state, placedPieces, players, i0, moves))
         && (gameEnded && moves > 0 ==>
               var last := placedPieces[|placedPieces| - 1];
               NoChainWin(Unplace(state, last), placedPieces[..|placedPieces| - 1], players, i0, moves - 1))
    }

    /**
     * While the game runs after a chain of AI turns, none of the AIs that
     * dropped in it holds a coord set: a drop that completed one would have
     * ended the game there.
     */
    lemma NoChainAiHasWon(from: nat, i0: int, k: nat)
      requires AiTurnsFrom(from, i0) && !gameEnded && from + k < |placedPieces|
      ensures 0 <= Advance(i0, |players|, k) < |players| && players[Advance(i0, |players|, k)].isAi
      ensures !Wins(state, placedPieces, players[Advance(i0, |players|, k)].id)
    {
      ChainAt(state, placedPieces, from, players, i0, |placedPieces| - from, k);
      assert ChainAiLost(state, placedPieces, players, i0, k);
    }

    /**
     * The fields after `dropPiece(col)` with its AI turns, starting from board
     * `s0`, log `placed0`, turn index `index0` and mover `current0`.  The
     * mover's piece sits on the landing row and stays there, and the log
     * starts with the old log and that cell.  When the mover's own piece
     * fills the top row or completes a coord set, the game is over on
     * exactly that board with the turn kept; when it does not and the next
     * player is human, that player is on move on exactly that board; when the
     * next player is an AI, at least one AI drop follows and the rest of the
     * log is the chain of AI turns from that player's index.
     */
    ghost predicate AfterMove(s0: Grid, placed0: seq<Coord>, index0: nat, current0: Player?, col: int)
      reads this
    {
      && current0 != null
      && height >= 1 && 0 <= col < width && Shaped(s0, width, height)
      && LandingRow(s0, width, height, col).Some?
      && var r := LandingRow(s0, width, height, col).value;
         && InGrid(s0, Coord(r, col))
         && var s1, log1 := Place(s0, r, col, current0.id), placed0 + [Coord(r, col)];
            && |s1| > 0
            && Holds(state, Coord(r, col), current0.id)
            && Grows(s1, state)
            && |placedPieces| >= |log1| && placedPieces[..|log1|] == log1
            && (TopRowFull(s1) || Wins(s1, log1, current0.id) ==>
                  gameEnded && state == s1 && placedPieces == log1 &&
                  currPlayerIndex == index0 && currPlayer == current0)
            && (!TopRowFull(s1) && !Wins(s1, log1, current0.id) ==> |players| > 0)
            && (!TopRowFull(s1) && !Wins(s1, log1, current0.id) && |players| > 0 &&
                !players[NextIndex(index0, |players|)].isAi ==>
                  !gameEnded && state == s1 && placedPieces == log1 &&
                  currPlayerIndex == NextIndex(index0, |players|) && currPlayer == players[currPlayerIndex])
            && (!TopRowFull(s1) && !Wins(s1, log1, current0.id) && |players| > 0 &&
                players[NextIndex(index0, |players|)].isAi ==>
                  |placedPieces| > |log1| && AiTurnsFrom(|log1|, NextIndex(index0, |players|)))
    }

    /**
     * After `dropPiece` with its AI turns, an ended game is a real end: the
     * top row is full or the player on move, who made the last drop, holds
     * a coord set.
     */
    lemma MoveEndIsReal(s0: Grid, placed0: seq<Coord>, index0: nat, current0: Player?, col: int)
      requires AfterMove(s0, placed0, index0, current0, col)
      ensures gameEnded ==> currPlayer != null && (TopRowFull(state) || Wins(state, placedPieces, currPlayer.id))
    {
      var r := LandingRow(s0, width, height, col).value;
      var s1, log1 := Place(s0, r, col, current0.id), placed0 + [Coord(r, col)];
      if !TopRowFull(s1) && !Wins(s1, log1, current0.id) && |players| > 0 && players[NextIndex(index0, |players|)].isAi {
        assert |placedPieces| - |log1| > 0;
      }
    }

    /**
     * A human and an AI: after the human's drop the AI replies exactly once,
     * so unless the game ended the log has grown by two pieces and the human
     * is on move again.
     */
    lemma AiRepliesOnce(s0: Grid, placed0: seq<Coord>, index0: nat, current0: Player?, col: int)
      requires AfterMove(s0, placed0, index0, current0, col)
      requires |players| == 2 && index0 < 2 && !players[index0].isAi && players[1 - index0].isAi
      ensures |placed0| + 1 <= |placedPieces| <= |placed0| + 2
      ensures !gameEnded ==> |placedPieces| == |placed0| + 2 && currPlayer == players[index0]
    {
      var r := LandingRow(s0, width, height, col).value;
      var s1, log1 := Place(s0, r, col, current0.id), placed0 + [Coord(r, col)];
      var j := NextIndex(index0, 2);
      assert j == 1 - index0 && NextIndex(j, 2) == index0;
      if !TopRowFull(s1) && !Wins(s1, log1, current0.id) {
        var moves := |placedPieces| - |log1|;
        assert AiChain(state, placedPieces, |log1|, players, j, moves);
        assert Advance(j, 2, 1) == index0;
        if moves >= 2 {
          ChainAt(state, placedPieces, |log1|, players, j, moves, 1);
          assert false;
        }
      }
    }

    /** `addPlayer(player)`: append to the roster. */
    method AddPlayer(player: Player)
      modifies this
      ensures players == old(players) + [player]
      ensures state == old(state) && placedPieces == old(placedPieces)
      ensures gameStarted == old(gameStarted) && gameEnded == old(gameEnded)
      ensures currPlayerIndex == old(currPlayerIndex) && currPlayer == old(currPlayer)
      ensures old(AiReady()) && !player.isAi ==> AiReady()
    {
      players := players + [player];
    }

    /** `removePlayer(playerId)`: the splice loop, skipping the element after each removal. */
    method RemovePlayer(playerId: string)
      modifies this
      ensures players == RemoveAsWritten(old(players), playerId)
      ensures state == old(state) && placedPieces == old(placedPieces)
      ensures gameStarted == old(gameStarted) && gameEnded == old(gameEnded)
      ensures currPlayerIndex == old(currPlayerIndex) && currPlayer == old(currPlayer)
      ensures old(AiReady()) && !CurrentAiToMove() ==> AiReady()
    {
      var i := 0;
      while i < |players|
        invariant 0 <= i <= |players| + 1
        invariant Pending(players, i, playerId) == RemoveAsWritten(old(players), playerId)
        invariant state == old(state) && placedPieces == old(placedPieces)
        invariant gameStarted == old(gameStarted) && gameEnded == old(gameEnded)
        invariant currPlayerIndex == old(currPlayerIndex) && currPlayer == old(currPlayer)
        decreases |players| + 1 - i
      {
        if players[i].id == playerId {
          RemoveStep(players, i, playerId);
          players := players[..i] + players[i + 1..];
        } else {
          KeepStep(players, i, playerId);
        }
        i := i + 1;
      }
      PendingAtEnd(players, i, playerId);
    }

    /**
     * `startGame()`: a fresh board, fresh candidate columns for every AI, a
     * random first player `first`, and the AI turns that follow.  The flags
     * are reset before the first turn (the source resets them after it; see
     * README).  When the first player drawn is human, the game waits for that
     * player's move on an empty board; when it is an AI, the log is the chain
     * of AI turns from index `firstIndex`, at least one drop long.
     */
    method StartGame() returns (ghost first: Player, ghost firstIndex: nat)
      requires |players| > 0
      requires forall i :: 0 <= i < |players| && players[i].isAi ==> width >= 1 && height >= 1
      modifies this, set p | p in players
      ensures Ready() && AiReady()
      ensures players == old(players) && gameStarted
      ensures first in players && TurnValid()
      ensures firstIndex < |players| && first == players[firstIndex]
      ensures currPlayer != null && currPlayer in players
      ensures Grows(NewGrid(width, height), state)
      ensures !first.isAi ==>
              && state == NewGrid(width, height) && placedPieces == [] && !gameEnded
              && currPlayer == first
      ensures first.isAi ==> |placedPieces| > 0 && AiTurnsFrom(0, firstIndex)
      ensures !CurrentAiToMove()
    {
      state := CreateGameState();
      NewGridInvariant(width, height);
      NotifyNewGame();
      forall p | p in players && p.isAi ensures CoversOpenColumns(state, width, p.availCols) {
        AllColumnsCover(state, width, p.availCols);
      }
      gameEnded := false;
      gameStarted := true;
      UpdateCurrPlayer(true);
      first, firstIndex := currPlayer, currPlayerIndex;
      assert currPlayer in players;
      assert Grows(NewGrid(width, height), state);
      if CurrentAiToMove() {
        assert !TopRowFull(state) by {
          assert state[0][0].value.None?;
        }
      }
      RunAiTurns();
    }

    /** The loop of `startGame` that tells every AI player a new game begins. */
    method NotifyNewGame()
      modifies set p | p in players
      ensures forall p :: p in players && p.isAi ==> AllColumns(p.availCols, width)
    {
      for i := 0 to |players|
        invariant forall j :: 0 <= j < i && players[j].isAi ==> AllColumns(players[j].availCols, width)
      {
        if players[i].isAi {
          label before:
          players[i].NewGame(this);
          forall j | 0 <= j < i && players[j].isAi ensures AllColumns(players[j].availCols, width) {
            if players[j] != players[i] {
              assert players[j].availCols == old@before(players[j].availCols);
            }
          }
        }
      }
      forall p | p in players && p.isAi ensures AllColumns(p.availCols, width) {
        var j :| 0 <= j < |players| && players[j] == p;
      }
    }

    /**
     * `dropPiece(col)`: one drop by the current player and then, as the
     * source's awaited `_updateCurrPlayer` does, the turns of every AI that
     * comes up next, until a human is on move or the game is over.
     */
    method DropPiece(col: int) returns (result: DropResult)
      requires Ready() && AiReady()
      requires !gameEnded ==> height >= 1 && 0 <= col < width
      requires !gameEnded && !ColumnFull(state, col) ==> currPlayer != null && (|players| > 0 || MoveEnds(col))
      modifies this, set p | p in players
      ensures Ready() && AiReady()
      ensures players == old(players) && gameStarted == old(gameStarted)
      ensures result == (if old(gameEnded) then Ended else if ColumnFull(old(state), col) then Full else Placed)
      ensures !result.Placed? ==> unchanged(this) && forall p :: p in players ==> unchanged(p)
      ensures result.Placed? ==>
              AfterMove(old(state), old(placedPieces), old(currPlayerIndex), old(currPlayer), col)
      ensures result.Placed? ==> Grows(old(state), state)
      ensures result.Placed? ==> !CurrentAiToMove()
    {
      result := DropPieceOnce(col);
      if result.Placed? {
        ghost var afterFirst := state;
        ghost var firstLog := placedPieces;
        ghost var r := LandingRow(old(state), width, height, col).value;
        ghost var mover := old(currPlayer).id;
        assert firstLog == old(placedPieces) + [Coord(r, col)];
        assert Holds(afterFirst, Coord(r, col), mover);
        forall p | p in players && p.isAi ensures CoversOpenColumns(state, width, p.availCols) {
          GrowsKeepsCover(old(state), state, width, p.availCols);
        }
        assert AiReady();
        ghost var aiNext := CurrentAiToMove();
        RunAiTurns();
        assert Grows(afterFirst, state);
        assert state[r][col] == afterFirst[r][col];
        assert Holds(state, Coord(r, col), mover);
        GrowsTransitive(old(state), afterFirst, state);
        assert placedPieces[..|firstLog|] == firstLog;
        assert !aiNext ==> state == afterFirst && placedPieces == firstLog;
      }
    }

    /** `dropPiece(col)` up to and including `_checkForGameEnd`'s verdict, without the AI turns after it. */
    method DropPieceOnce(col: int) returns (result: DropResult)
      requires Ready()
      requires !gameEnded ==> height >= 1 && 0 <= col < width
      requires !gameEnded && !ColumnFull(state, col) ==> currPlayer != null && (|players| > 0 || MoveEnds(col))
      modifies this
      ensures Ready()
      ensures players == old(players) && gameStarted == old(gameStarted)
      ensures result == (if old(gameEnded) then Ended else if ColumnFull(old(state), col) then Full else Placed)
      ensures !result.Placed? ==> unchanged(this)
      ensures result.Placed? ==> DroppedFrom(old(state), old(placedPieces), old(currPlayerIndex), old(currPlayer), col)
      ensures result.Placed? ==>
              && old(currPlayer) != null && LandingRow(old(state), width, height, col).Some?
              && var cell := Coord(LandingRow(old(state), width, height, col).value, col);
                 placedPieces == old(placedPieces) + [cell] && Holds(state, cell, old(currPlayer).id)
      ensures result.Placed? ==> Grows(old(state), state)
      ensures result.Placed? && !gameEnded ==> height >= 1 && !TopRowFull(state)
      ensures result.Placed? && !gameEnded ==> currPlayer != null && currPlayer in players
    {
      if gameEnded {
        return Ended;
      }
      var targetRow := FindEmptyCellInColumn(col);
      if targetRow.None? {
        return Full;
      }
      var r := targetRow.value;
      ghost var s0, log0, index0, current0 := state, placedPieces, currPlayerIndex, currPlayer;
      ghost var ends := MoveEnds(col);
      PlaceAt(r, col);
      assert ends ==> TopRowFull(state) || Wins(state, placedPieces, current0.id);
      var outcome := CheckForGameEnd();
      assert DroppedFrom(s0, log0, index0, current0, col);
      return Placed;
    }

    /** The piece-placing half of `dropPiece`: `_addToBoard` at the landing row, keeping the board consistent. */
    method PlaceAt(r: int, col: int)
      requires Ready() && currPlayer != null && height >= 1 && 0 <= col < width
      requires LandingRow(state, width, height, col) == Some(r)
      modifies this
      ensures Ready() && InGrid(old(state), Coord(r, col))
      ensures state == Place(old(state), r, col, old(currPlayer).id)
      ensures placedPieces == old(placedPieces) + [Coord(r, col)]
      ensures Grows(old(state), state) && Holds(state, Coord(r, col), old(currPlayer).id)
      ensures players == old(players) && gameStarted == old(gameStarted) && gameEnded == old(gameEnded)
      ensures currPlayerIndex == old(currPlayerIndex) && currPlayer == old(currPlayer)
    {
      DropPreservesInvariant(state, placedPieces, width, height, col, currPlayer.id);
      LandingIsLowestEmpty(state, width, height, col);
      PlaceGrows(state, r, col, currPlayer.id);
      AddToBoard(r, col);
    }

    /**
     * `_createGameState()`: clears the log and builds the matrix row by row,
     * each cell empty and carrying its coord sets (the source first fills the
     * matrix with nulls and then replaces each null; the result is the same).
     */
    method CreateGameState() returns (gameState: Grid)
      modifies this
      ensures gameState == NewGrid(width, height)
      ensures placedPieces == []
      ensures players == old(players) && state == old(state)
      ensures gameStarted == old(gameStarted) && gameEnded == old(gameEnded)
      ensures currPlayerIndex == old(currPlayerIndex) && currPlayer == old(currPlayer)
    {
      ghost var blank := NewGrid(width, height);
      gameState := [];
      placedPieces := [];
      for y := 0 to height
        invariant |gameState| == y
        invariant forall yy :: 0 <= yy < y ==> gameState[yy] == blank[yy]
      {
        var row: seq<Cell> := [];
        assert |blank[y]| == width;
        for x := 0 to width
          invariant |row| == x
          invariant forall xx :: 0 <= xx < x ==> row[xx] == blank[y][xx]
        {
          assert blank[y][x] == Cell(None, CoordSets(y, x, width, height));
          row := row + [Cell(None, CoordSets(y, x, width, height))];
        }
        assert row == blank[y];
        gameState := gameState + [row];
      }
      assert gameState == blank;
    }

    /**
     * `_findEmptyCellInColumn(col)`: nothing when the top cell is taken;
     * otherwise the row above the first occupied cell scanning down, or the
     * bottom row.  It only reads the board.
     */
    method FindEmptyCellInColumn(col: int) returns (row: Option<int>)
      requires Shaped(state, width, height) && height >= 1 && 0 <= col < width
      ensures row == LandingRow(state, width, height, col)
      ensures row.None? <==> state[0][col].value.Some?
      ensures row.Some? ==>
              && 0 <= row.value < height
              && (forall y :: 0 <= y <= row.value ==> state[y][col].value.None?)
              && (row.value + 1 == height || state[row.value + 1][col].value.Some?)
    {
      if state[0][col].value.Some? {
        return None;
      }
      var r := 0;
      while r < height
        invariant 0 <= r <= height
        invariant forall y :: 0 <= y < r ==> state[y][col].value.None?
        invariant FirstOccupied(state, width, height, col, 0) == FirstOccupied(state, width, height, col, r)
      {
        if state[r][col].value.Some? {
          return Some(r - 1);
        }
        r := r + 1;
      }
      return Some(height - 1);
    }

    /** `_addToBoard(y, x)`: the current player's id goes into the cell, the cell into the log. */
    method AddToBoard(y: int, x: int)
      requires InGrid(state, Coord(y, x)) && currPlayer != null
      modifies this
      ensures state == Place(old(state), y, x, old(currPlayer).id)
      ensures placedPieces == old(placedPieces) + [Coord(y, x)]
      ensures players == old(players) && gameStarted == old(gameStarted) && gameEnded == old(gameEnded)
      ensures currPlayerIndex == old(currPlayerIndex) && currPlayer == old(currPlayer)
    {
      state := state[y := state[y][x := state[y][x].(value := Some(currPlayer.id))]];
      placedPieces := placedPieces + [Coord(y, x)];
    }

    /** `_endGame(msg)`: the game is over (the message goes to the page). */
    method EndGame(msg: string)
      modifies this
      ensures gameEnded
      ensures state == old(state) && placedPieces == old(placedPieces)
      ensures players == old(players) && gameStarted == old(gameStarted)
      ensures currPlayerIndex == old(currPlayerIndex) && currPlayer == old(currPlayer)
    {
      gameEnded := true;
    }

    /**
     * `_checkForGameEnd()`: first the tie test on the top row, then the win
     * scan over every placed piece; either ends the game on the spot, and
     * only when neither fires does the turn pass on.
     */
    method CheckForGameEnd() returns (outcome: GameEnd)
      requires Ready() && height >= 1 && currPlayer != null
      requires |players| > 0 || TopRowFull(state) || Wins(state, placedPieces, currPlayer.id)
      modifies this
      ensures outcome == EndOfGame(old(state), old(placedPieces), old(currPlayer).id)
      ensures state == old(state) && placedPieces == old(placedPieces)
      ensures players == old(players) && gameStarted == old(gameStarted)
      ensures gameEnded == (old(gameEnded) || !outcome.Continue?)
      ensures outcome.Continue? <==> !TopRowFull(state) && !Wins(state, placedPieces, old(currPlayer).id)
      ensures !outcome.Continue? ==> currPlayerIndex == old(currPlayerIndex) && currPlayer == old(currPlayer)
      ensures outcome.Continue? ==>
              currPlayerIndex == NextIndex(old(currPlayerIndex), |players|) &&
              0 <= currPlayerIndex < |players| && currPlayer == players[currPlayerIndex]
    {
      EndOfGameCases(state, placedPieces, currPlayer.id);
      var full := TopRowIsFull();
      if full {
        EndGame("It's a tie!");
        return Tie;
      }
      var line := FindWinningSet();
      if line.Some? {
        EndGame("Player " + currPlayer.name + " has won!");
        return Won(line.value);
      }
      UpdateCurrPlayer(false);
      return Continue;
    }

    /** The tie test `state[0].every(cell => cell.value !== null)`. */
    method TopRowIsFull() returns (full: bool)
      requires Shaped(state, width, height) && height >= 1
      ensures full <==> forall x :: 0 <= x < width ==> state[0][x].value.Some?
      ensures full == TopRowFull(state)
    {
      for x := 0 to width
        invariant forall k :: 0 <= k < x ==> state[0][k].value.Some?
      {
        if state[0][x].value.None? {
          return false;
        }
      }
      return true;
    }

    /**
     * The win scan of `_checkForGameEnd`: every placed piece in log order,
     * every coord set of its cell in order, and the first set whose four
     * cells all hold the current player's id.
     */
    method FindWinningSet() returns (line: Option<seq<Coord>>)
      requires Ready() && currPlayer != null
      ensures line == FirstWin(state, placedPieces, currPlayer.id)
      ensures line.Some? ==> Held(state, line.value, currPlayer.id)
    {
      var id := currPlayer.id;
      for i := 0 to |placedPieces|
        invariant FirstWin(state, placedPieces, id) == FirstWin(state, placedPieces[i..], id)
      {
        var px := placedPieces[i].row;
        var py := placedPieces[i].col;
        var sets := state[px][py].validCoordSets;
        assert InGrid(state, placedPieces[i]);
        assert placedPieces[i..][0] == placedPieces[i] && placedPieces[i..][1..] == placedPieces[i + 1..];
        for j := 0 to |sets|
          invariant FirstHeld(state, sets, id) == FirstHeld(state, sets[j..], id)
        {
          assert sets[j..][0] == sets[j] && sets[j..][1..] == sets[j + 1..];
          if Held(state, sets[j], id) {
            return Some(sets[j]);
          }
        }
        assert sets[|sets|..] == [];
      }
      assert placedPieces[|placedPieces|..] == [];
      return None;
    }

    /**
     * `_updateCurrPlayer(random)` without the display update and the AI
     * turn: a random index in [0, n), or the next index with wrap-around.
     * The display update reads the new player's name, so an empty roster
     * is a crash in the source and excluded here.
     */
    method UpdateCurrPlayer(random: bool)
      requires |players| > 0
      modifies this
      ensures !random ==> currPlayerIndex == NextIndex(old(currPlayerIndex), |players|)
      ensures 0 <= currPlayerIndex < |players| && currPlayer == players[currPlayerIndex]
      ensures state == old(state) && placedPieces == old(placedPieces)
      ensures players == old(players) && gameStarted == old(gameStarted) && gameEnded == old(gameEnded)
    {
      if random {
        var totalPlayers := |players|;
        var pick :| 0 <= pick < totalPlayers;
        currPlayerIndex := pick;
        currPlayer := players[currPlayerIndex];
      } else if currPlayerIndex >= |players| - 1 {
        currPlayerIndex := 0;
        currPlayer := players[0];
      } else {
        currPlayerIndex := currPlayerIndex + 1;
        currPlayer := players[currPlayerIndex];
      }
    }

    /**
     * The tail of `_updateCurrPlayer`: while an AI is on move in a running
     * game it takes its turn (`takeTurn`, that is `_aiDropPiece`).  Each turn
     * fills one empty cell, so the chain ends.  The update just before it
     * sets the current player from the turn index, so an AI on move is the
     * one the index names.
     */
    method RunAiTurns()
      requires Ready() && AiReady()
      requires CurrentAiToMove() ==> height >= 1 && !TopRowFull(state) && TurnValid()
      modifies this, set p | p in players
      ensures Ready() && AiReady()
      ensures players == old(players) && gameStarted == old(gameStarted)
      ensures !CurrentAiToMove()
      ensures Grows(old(state), state)
      ensures |old(placedPieces)| <= |placedPieces| && placedPieces[..|old(placedPieces)|] == old(placedPieces)
      ensures !old(CurrentAiToMove()) ==> unchanged(this)
      ensures old(TurnValid()) ==> TurnValid()
      ensures old(CurrentAiToMove()) ==> |placedPieces| > |old(placedPieces)|
      ensures gameEnded && !old(gameEnded) ==>
              currPlayer != null && currPlayer.isAi &&
              (TopRowFull(state) || Wins(state, placedPieces, currPlayer.id))
      ensures old(TurnValid()) ==> AiTurnsFrom(|old(placedPieces)|, old(currPlayerIndex))
    {
      assert Grows(state, state);
      while CurrentAiToMove()
        invariant Ready() && AiReady()
        invariant CurrentAiToMove() ==> height >= 1 && !TopRowFull(state)
        invariant players == old(players) && gameStarted == old(gameStarted)
        invariant Grows(old(state), state)
        invariant |old(placedPieces)| <= |placedPieces| && placedPieces[..|old(placedPieces)|] == old(placedPieces)
        invariant !old(CurrentAiToMove()) ==> unchanged(this)
        invariant old(CurrentAiToMove()) ==>
                  (CurrentAiToMove() || |placedPieces| > |old(placedPieces)|) &&
                  AiTurnsFrom(|old(placedPieces)|, old(currPlayerIndex))
        decreases OpenCells(state, width, height)
      {
        ghost var s1, l1 := state, placedPieces;
        AiTurn(|old(placedPieces)|, old(currPlayerIndex));
        GrowsTransitive(old(state), s1, state);
        PrefixTransitive(old(placedPieces), l1, placedPieces);
      }
    }

    /**
     * One pass of the chain: the AI on move, which the turn index names,
     * takes its turn, and the chain from log length `from` and index `i0`
     * grows by that drop.
     */
    method AiTurn(ghost from: nat, ghost i0: int)
      requires Ready() && AiReady() && CurrentAiToMove() && height >= 1 && !TopRowFull(state)
      requires AiTurnsFrom(from, i0)
      modifies this, set p | p in players
      ensures Ready() && AiReady()
      ensures CurrentAiToMove() ==> height >= 1 && !TopRowFull(state)
      ensures players == old(players) && gameStarted == old(gameStarted)
      ensures Grows(old(state), state)
      ensures |placedPieces| == |old(placedPieces)| + 1 && placedPieces[..|old(placedPieces)|] == old(placedPieces)
      ensures OpenCells(state, width, height) < old(OpenCells(state, width, height))
      ensures AiTurnsFrom(from, i0)
    {
      ghost var s1, l1, index1, current1 := state, placedPieces, currPlayerIndex, currPlayer;
      assert AiChain(s1, l1, from, players, i0, |l1| - from);
      assert index1 == Advance(i0, |players|, |l1| - from);
      assert 0 <= index1 < |players| && current1 == players[index1];
      assert currPlayer in players;
      currPlayer.TakeTurn(this);
      ghost var col := placedPieces[|l1|].col;
      assert DroppedFrom(s1, l1, index1, current1, col);
      ChainStep(s1, l1, index1, current1, col, from, i0);
      ghost var r := LandingRow(s1, width, height, col).value;
      assert Anchored(s1, l1, width, height);
      UnwonStep(s1, l1, r, col, current1.id, from, i0);
    }

    /**
     * One AI turn extends the chain: the AI on move at index `index1`, which
     * is `i0` advanced once per earlier drop, dropped into `col`.
     */
    lemma ChainStep(s1: Grid, l1: seq<Coord>, index1: int, current1: Player?, col: int, from: nat, i0: int)
      requires DroppedFrom(s1, l1, index1, current1, col)
      requires from <= |l1| && AiChain(s1, l1, from, players, i0, |l1| - from)
      requires 0 <= index1 < |players| && current1 == players[index1] && current1.isAi
      requires index1 == Advance(i0, |players|, |l1| - from)
      ensures ChainInTurn(from, i0)
    {
      var moves := |l1| - from;
      var r := LandingRow(s1, width, height, col).value;
      assert Holds(state, Coord(r, col), current1.id);
      PlaceGrows(s1, r, col, current1.id);
      AiChainStep(s1, l1, state, Coord(r, col), from, players, i0, moves);
      assert placedPieces == l1 + [Coord(r, col)];
      assert |placedPieces| - from == moves + 1;
      assert AiChain(state, placedPieces, from, players, i0, |placedPieces| - from);
      assert Advance(i0, |players|, |placedPieces| - from - 1) == index1;
      assert TurnValid();
      if gameEnded {
        assert currPlayerIndex == index1 && currPlayer == current1;
        assert TopRowFull(state) || Wins(state, placedPieces, current1.id);
      } else {
        assert currPlayerIndex == NextIndex(index1, |players|);
        assert currPlayerIndex == Advance(i0, |players|, moves + 1);
        assert !TopRowFull(state) && !Wins(state, placedPieces, current1.id);
      }
    }

    /**
     * One AI turn keeps the chain unwon: a drop that goes on gives no mover a
     * win, and a drop that ends the game leaves the board before it as it was.
     */
    lemma UnwonStep(s1: Grid, l1: seq<Coord>, r: int, col: int, id: string, from: nat, i0: int)
      requires from <= |l1| && Anchored(s1, l1, width, height)
      requires NoChainWin(s1, l1, players, i0, |l1| - from)
      requires 0 <= Advance(i0, |players|, |l1| - from) < |players|
      requires id == players[Advance(i0, |players|, |l1| - from)].id
      requires InBounds(Coord(r, col), width, height) && s1[r][col].value.None?
      requires state == Place(s1, r, col, id) && placedPieces == l1 + [Coord(r, col)]
      requires !gameEnded ==> !Wins(state, placedPieces, id)
      ensures ChainUnwon(from, i0)
    {
      if gameEnded {
        UnplacePlace(s1, r, col, id);
        assert placedPieces[|placedPieces| - 1] == Coord(r, col);
        assert placedPieces[..|placedPieces| - 1] == l1;
      } else {
        NoChainWinStep(s1, l1, state, placedPieces, width, height, r, col, players, i0, |l1| - from);
        assert |placedPieces| - from == |l1| - from + 1;
      }
    }
  }

  /** A prefix of a prefix is a prefix. */
  lemma PrefixTransitive<T>(a: seq<T>, b: seq<T>, c: seq<T>)
    requires |a| <= |b| && b[..|a|] == a
    requires |b| <= |c| && c[..|b|] == b
    ensures |a| <= |c| && c[..|a|] == a
  {
    assert c[..|a|] == c[..|b|][..|a|];
  }
}
