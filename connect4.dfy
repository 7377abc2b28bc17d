/**
 * The page handlers of connect4.js that hold logic of their own: the
 * validation in `handleAddPlayer`, the column parse in `handlePieceDrop`, and
 * the id `handleRemovePlayer` passes on.  The DOM reads become parameters
 * (the name, the colour, the AI check box, the clicked element's id), and
 * the global `game` is a parameter too.
 */
module Connect4 {
  import opened WinLines
  import opened Board
  import opened Models
  import Hash

  // ---------------------------------------------------------------------
  // `String.prototype.trim`

  /**
   * The characters `trim()` removes: the ECMAScript WhiteSpace code points
   * (tab, vertical tab, form feed, the byte order mark and every space
   * separator) and the LineTerminator code points.
   */
  predicate IsJsWhitespace(c: char)
  {
    || c == '\U{0009}' || c == '\U{000B}' || c == '\U{000C}' || c == '\U{FEFF}'
    || c == '\U{0020}' || c == '\U{00A0}' || c == '\U{1680}' || ('\U{2000}' <= c <= '\U{200A}')
    || c == '\U{202F}' || c == '\U{205F}' || c == '\U{3000}'
    || c == '\U{000A}' || c == '\U{000D}' || c == '\U{2028}' || c == '\U{2029}'
  }

  /** `s.trimStart()`: the suffix left after the leading whitespace. */
  function TrimStart(s: string): (t: string)
    ensures |t| <= |s| && t == s[|s| - |t|..]
    ensures forall k :: 0 <= k < |s| - |t| ==> IsJsWhitespace(s[k])
    ensures t == [] || !IsJsWhitespace(t[0])
  {
    if s == [] || !IsJsWhitespace(s[0]) then s else TrimStart(s[1..])
  }

  /** `s.trimEnd()`: the prefix left before the trailing whitespace. */
  function TrimEnd(s: string): (t: string)
    ensures |t| <= |s| && t == s[..|t|]
    ensures forall k :: |t| <= k < |s| ==> IsJsWhitespace(s[k])
    ensures t == [] || !IsJsWhitespace(t[|t| - 1])
  {
    if s == [] || !IsJsWhitespace(s[|s| - 1]) then s else TrimEnd(s[..|s| - 1])
  }

  function Trim(s: string): (t: string)
    ensures |t| <= |s|
    ensures t == [] || (!IsJsWhitespace(t[0]) && !IsJsWhitespace(t[|t| - 1]))
  {
    TrimEnd(TrimStart(s))
  }

  /**
   * `trim()` cuts a slice out of the string: everything before and after it
   * is whitespace, and a non-empty slice neither starts nor ends with any.
   */
  lemma TrimSlice(s: string) returns (i: nat, j: nat)
    ensures i <= j <= |s| && Trim(s) == s[i..j]
    ensures forall k :: 0 <= k < i ==> IsJsWhitespace(s[k])
    ensures forall k :: j <= k < |s| ==> IsJsWhitespace(s[k])
    ensures i < j ==> !IsJsWhitespace(s[i]) && !IsJsWhitespace(s[j - 1])
  {
    var u := TrimStart(s);
    i := |s| - |u|;
    var t := TrimEnd(u);
    j := i + |t|;
    PrefixOfSuffix(s, i, |t|);
    assert t == s[i..j] && Trim(s) == t;
    forall k | j <= k < |s| ensures IsJsWhitespace(s[k]) {
      assert s[k] == u[k - i];
    }
    if i < j {
      assert s[i] == t[0] && s[j - 1] == t[|t| - 1];
    }
  }

  /** The first `n` characters of the suffix from `i` are the slice from `i` to `i + n`. */
  lemma PrefixOfSuffix(s: string, i: nat, n: nat)
    requires i + n <= |s|
    ensures s[i..][..n] == s[i..i + n]
  {
  }

  /** A name is blank for `handleAddPlayer` exactly when it is all whitespace. */
  lemma BlankIffAllWhitespace(s: string)
    ensures Trim(s) == "" <==> forall k :: 0 <= k < |s| ==> IsJsWhitespace(s[k])
  {
    var i, j := TrimSlice(s);
    if forall k :: 0 <= k < |s| ==> IsJsWhitespace(s[k]) {
      assert i == j;
    } else {
      var k :| 0 <= k < |s| && !IsJsWhitespace(s[k]);
      assert i <= k < j;
    }
  }

  // ---------------------------------------------------------------------
  // `handleAddPlayer`

  /**
   * How `handleAddPlayer` ends: with the alert "Player names must not be
   * empty!", with the alert "Player names must be unique!", or with a new
   * player on the roster.
   */
  datatype AddOutcome = EmptyName | DuplicateName | Added

  /** The id a player of that name gets. */
  function PlayerId(name: string): string
  {
    Hash.ToHex(Hash.HashValue(name))
  }

  predicate NameTaken(players: seq<Player>, name: string)
  {
    exists k :: 0 <= k < |players| && players[k].name == name
  }

  predicate IdTaken(players: seq<Player>, id: string)
  {
    exists k :: 0 <= k < |players| && players[k].id == id
  }

  predicate NamesDistinct(players: seq<Player>)
  {
    forall i, j :: 0 <= i < j < |players| ==> players[i].name != players[j].name
  }

  predicate IdsDistinct(players: seq<Player>)
  {
    forall i, j :: 0 <= i < j < |players| ==> players[i].id != players[j].id
  }

  /**
   * `handleAddPlayer`: reject a name that trims to nothing, then one equal
   * (as typed, untrimmed) to a name on the roster; otherwise append a new
   * `AiPlayer` or `Player` depending on the check box.  Names stay distinct.
   */
  method HandleAddPlayer(game: Game, playerName: string, playerColor: string, playerAiToggle: bool)
    returns (outcome: AddOutcome)
    modifies game
    ensures outcome == (if Trim(playerName) == "" then EmptyName
                        else if NameTaken(old(game.players), playerName) then DuplicateName
                        else Added)
    ensures outcome != Added ==> game.players == old(game.players)
    ensures outcome == Added ==>
            && |game.players| == |old(game.players)| + 1
            && game.players[..|old(game.players)|] == old(game.players)
            && var p := game.players[|old(game.players)|];
               && fresh(p) && p.name == playerName && p.color == playerColor
               && p.isAi == playerAiToggle && p.id == PlayerId(playerName) && p.availCols == []
    ensures NamesDistinct(old(game.players)) ==> NamesDistinct(game.players)
    ensures game.state == old(game.state) && game.placedPieces == old(game.placedPieces)
    ensures game.gameStarted == old(game.gameStarted) && game.gameEnded == old(game.gameEnded)
    ensures game.currPlayer == old(game.currPlayer) && game.currPlayerIndex == old(game.currPlayerIndex)
  {
    if Trim(playerName) == "" {
      return EmptyName;
    }
    for k := 0 to |game.players|
      invariant forall m :: 0 <= m < k ==> game.players[m].name != playerName
    {
      if game.players[k].name == playerName {
        return DuplicateName;
      }
    }
    var player := AppendNewPlayer(game, playerName, playerColor, playerAiToggle);
    AppendKeepsDistinct(old(game.players), player);
    return Added;
  }

  /** The tail of `handleAddPlayer`: a new `AiPlayer` or `Player` goes to the end of the roster. */
  method AppendNewPlayer(game: Game, playerName: string, playerColor: string, playerAiToggle: bool)
    returns (player: Player)
    modifies game
    ensures fresh(player) && game.players == old(game.players) + [player]
    ensures player.name == playerName && player.color == playerColor
    ensures player.isAi == playerAiToggle && player.id == PlayerId(playerName) && player.availCols == []
    ensures game.state == old(game.state) && game.placedPieces == old(game.placedPieces)
    ensures game.gameStarted == old(game.gameStarted) && game.gameEnded == old(game.gameEnded)
    ensures game.currPlayer == old(game.currPlayer) && game.currPlayerIndex == old(game.currPlayerIndex)
  {
    if playerAiToggle {
      player := new Player.Ai(playerName, playerColor);
    } else {
      player := new Player.Human(playerName, playerColor);
    }
    game.AddPlayer(player);
  }

  /** A newcomer whose name (id) is not on the roster keeps the names (ids) distinct. */
  lemma AppendKeepsDistinct(players: seq<Player>, player: Player)
    ensures NamesDistinct(players) && !NameTaken(players, player.name) ==> NamesDistinct(players + [player])
    ensures IdsDistinct(players) && !IdTaken(players, player.id) ==> IdsDistinct(players + [player])
    ensures (players + [player])[..|players|] == players
  {
    var t := players + [player];
    assert forall k :: 0 <= k < |players| ==> t[k] == players[k];
  }

  /**
   * The name check compares names, not ids, and the id is a 32-bit hash:
   * the different names "Aa" and "BB" both pass it and get the same id, so
   * their pieces count for each other and removing one removes by that id.
   */
  lemma CollidingNames(p: Player)
    requires p.name == "Aa"
    ensures "Aa" != "BB" && !NameTaken([p], "BB")
    ensures Hash.HashValue("Aa") == Hash.HashValue("BB") == 2112
    ensures PlayerId("Aa") == PlayerId("BB")
  {
    assert "Aa"[..1] == "A" && "A"[..0] == "";
    assert "BB"[..1] == "B" && "B"[..0] == "";
  }

  /**
   * `handleAddPlayer` with the check the ids need: a name whose id is already
   * on the roster is turned away like a duplicate name, so ids stay distinct
   * and each board value names one player.
   */
  method HandleAddPlayerDistinctIds(game: Game, playerName: string, playerColor: string, playerAiToggle: bool)
    returns (outcome: AddOutcome)
    modifies game
    ensures outcome == (if Trim(playerName) == "" then EmptyName
                        else if NameTaken(old(game.players), playerName) ||
                                IdTaken(old(game.players), PlayerId(playerName))
                        then DuplicateName
                        else Added)
    ensures outcome != Added ==> game.players == old(game.players)
    ensures outcome == Added ==>
            && |game.players| == |old(game.players)| + 1
            && game.players[..|old(game.players)|] == old(game.players)
            && var p := game.players[|old(game.players)|];
               && fresh(p) && p.name == playerName && p.color == playerColor
               && p.isAi == playerAiToggle && p.id == PlayerId(playerName)
    ensures IdsDistinct(old(game.players)) ==> IdsDistinct(game.players)
    ensures NamesDistinct(old(game.players)) ==> NamesDistinct(game.players)
    ensures game.state == old(game.state) && game.placedPieces == old(game.placedPieces)
    ensures game.gameStarted == old(game.gameStarted) && game.gameEnded == old(game.gameEnded)
    ensures game.currPlayer == old(game.currPlayer) && game.currPlayerIndex == old(game.currPlayerIndex)
  {
    if Trim(playerName) == "" {
      return EmptyName;
    }
    var playerId := Hash.GenerateMD5HashHex(playerName);
    var taken := SearchRoster(game.players, playerName, playerId);
    if taken {
      return DuplicateName;
    }
    var player := AppendNewPlayer(game, playerName, playerColor, playerAiToggle);
    AppendKeepsDistinct(old(game.players), player);
    return Added;
  }

  /** The roster scan of the corrected handler: is the name or the id already there? */
  method SearchRoster(players: seq<Player>, name: string, id: string) returns (taken: bool)
    ensures taken <==> NameTaken(players, name) || IdTaken(players, id)
  {
    for k := 0 to |players|
      invariant forall m :: 0 <= m < k ==> players[m].name != name && players[m].id != id
    {
      if players[k].name == name || players[k].id == id {
        return true;
      }
    }
    return false;
  }

  // ---------------------------------------------------------------------
  // The column parse of `handlePieceDrop`

  /** The regular-expression class `\d`: the ASCII digits. */
  predicate IsDigit(c: char)
  {
    '0' <= c <= '9'
  }

  predicate AllDigits(s: string)
  {
    forall k :: 0 <= k < |s| ==> IsDigit(s[k])
  }

  predicate HasDigit(s: string)
  {
    exists k :: 0 <= k < |s| && IsDigit(s[k])
  }

  /** Where the leftmost match of `/(\d+)/` at or after `i` starts. */
  function FirstDigitFrom(s: string, i: nat): (start: nat)
    requires exists k :: i <= k < |s| && IsDigit(s[k])
    ensures i <= start < |s| && IsDigit(s[start])
    ensures forall k :: i <= k < start ==> !IsDigit(s[k])
    decreases |s| - i
  {
    if IsDigit(s[i]) then i else FirstDigitFrom(s, i + 1)
  }

  /** Where the greedy `\d+` that starts at `i` stops. */
  function DigitsEnd(s: string, i: nat): (end: nat)
    requires i <= |s|
    ensures i <= end <= |s|
    ensures forall k :: i <= k < end ==> IsDigit(s[k])
    ensures end == |s| || !IsDigit(s[end])
    decreases |s| - i
  {
    if i < |s| && IsDigit(s[i]) then DigitsEnd(s, i + 1) else i
  }

  /** `Number` of a string of decimal digits. */
  function DecimalValue(digits: string): nat
    requires AllDigits(digits)
  {
    if digits == [] then 0
    else 10 * DecimalValue(digits[..|digits| - 1]) + (digits[|digits| - 1] as int - '0' as int)
  }

  /** `Number(targetId.match(/(\d+)/)[0])`; an id without a digit is a crash in the source. */
  function ParseColumn(targetId: string): (col: nat)
    requires HasDigit(targetId)
    ensures exists i, j ::
              && 0 <= i < j <= |targetId|
              && (forall k :: 0 <= k < i ==> !IsDigit(targetId[k]))
              && AllDigits(targetId[i..j]) && (j == |targetId| || !IsDigit(targetId[j]))
              && col == DecimalValue(targetId[i..j])
  {
    var start := FirstDigitFrom(targetId, 0);
    var end := DigitsEnd(targetId, start);
    assert start < end;
    DecimalValue(targetId[start..end])
  }

  /** A non-negative integer written in decimal, as `${x}` writes it. */
  function NatToDecimal(n: nat): string
  {
    if n < 10 then ["0123456789"[n]] else NatToDecimal(n / 10) + ["0123456789"[n % 10]]
  }

  /** The id `_createHtmlBoard` gives the drop cell over column `x`. */
  function TopRowCellId(x: nat): (id: string)
    ensures |id| > 13 && id[..13] == "top-row-cell-" && AllDigits(id[13..])
  {
    DecimalRoundTrip(x);
    assert ("top-row-cell-" + NatToDecimal(x))[13..] == NatToDecimal(x);
    "top-row-cell-" + NatToDecimal(x)
  }

  lemma {:induction false} DecimalRoundTrip(n: nat)
    ensures AllDigits(NatToDecimal(n)) && |NatToDecimal(n)| > 0
    ensures DecimalValue(NatToDecimal(n)) == n
  {
    if n >= 10 {
      DecimalRoundTrip(n / 10);
      var d := NatToDecimal(n);
      var last := "0123456789"[n % 10];
      assert d == NatToDecimal(n / 10) + [last];
      assert d[..|d| - 1] == NatToDecimal(n / 10);
      assert last as int - '0' as int == n % 10;
      assert n == 10 * (n / 10) + n % 10;
    } else {
      assert "0123456789"[n] as int - '0' as int == n;
    }
  }

  /**
   * The parse inverts the id format: the digit run of `top-row-cell-x` is
   * the decimal numeral of x, and it reads back as x.
   */
  lemma ParseTopRowCellId(x: nat)
    ensures HasDigit(TopRowCellId(x))
    ensures ParseColumn(TopRowCellId(x)) == x
  {
    var id := TopRowCellId(x);
    var digits := NatToDecimal(x);
    DecimalRoundTrip(x);
    var prefix := "top-row-cell-";
    assert |prefix| == 13;
    assert forall k :: 0 <= k < 13 ==> id[k] == prefix[k] && !IsDigit(id[k]);
    assert forall k :: 13 <= k < |id| ==> id[k] == digits[k - 13];
    assert IsDigit(id[13]);
    var start := FirstDigitFrom(id, 0);
    assert start == 13;
    var end := DigitsEnd(id, start);
    assert end == |id|;
    assert id[start..end] == digits;
  }

  /**
   * `handlePieceDrop`: parse the column out of the clicked cell's id and
   * drop there.  The console output is left out.
   */
  method HandlePieceDrop(game: Game, targetId: string) returns (result: DropResult)
    requires HasDigit(targetId)
    requires game.Ready() && game.AiReady()
    requires !game.gameEnded ==> game.height >= 1 && 0 <= ParseColumn(targetId) < game.width
    requires !game.gameEnded && !ColumnFull(game.state, ParseColumn(targetId)) ==>
             game.currPlayer != null && (|game.players| > 0 || game.MoveEnds(ParseColumn(targetId)))
    modifies game, set p | p in game.players
    ensures game.Ready() && game.AiReady()
    ensures result == (if old(game.gameEnded) then Ended
                       else if ColumnFull(old(game.state), ParseColumn(targetId)) then Full
                       else Placed)
    ensures !result.Placed? ==> unchanged(game) && forall p :: p in game.players ==> unchanged(p)
    ensures result.Placed? ==>
            game.AfterMove(old(game.state), old(game.placedPieces), old(game.currPlayerIndex),
                           old(game.currPlayer), ParseColumn(targetId))
    ensures result.Placed? ==> Grows(old(game.state), game.state)
    ensures result.Placed? ==> !game.CurrentAiToMove()
  {
    var targetColumn := ParseColumn(targetId);
    result := game.DropPiece(targetColumn);
  }

  /** A click on the drop cell over column `x` drops into column `x`. */
  method ClickTopRowCell(game: Game, x: nat) returns (result: DropResult)
    requires game.Ready() && game.AiReady()
    requires !game.gameEnded ==> game.height >= 1 && x < game.width
    requires !game.gameEnded && !ColumnFull(game.state, x) ==>
             game.currPlayer != null && (|game.players| > 0 || game.MoveEnds(x))
    modifies game, set p | p in game.players
    ensures game.Ready() && game.AiReady()
    ensures result == (if old(game.gameEnded) then Ended else if ColumnFull(old(game.state), x) then Full else Placed)
    ensures !result.Placed? ==> unchanged(game) && forall p :: p in game.players ==> unchanged(p)
    ensures result.Placed? ==>
            game.AfterMove(old(game.state), old(game.placedPieces), old(game.currPlayerIndex),
                           old(game.currPlayer), x)
    ensures result.Placed? ==> Grows(old(game.state), game.state)
    ensures result.Placed? ==> !game.CurrentAiToMove()
  {
    ParseTopRowCellId(x);
    result := HandlePieceDrop(game, TopRowCellId(x));
  }

  // ---------------------------------------------------------------------
  // `handleRemovePlayer`

  /**
   * `handleRemovePlayer`: the clicked button's id, which `addPlayerToHtmlList`
   * sets to the player's id, goes to `removePlayer`.
   * When only that player carries the id, exactly that player leaves.
   */
  method HandleRemovePlayer(game: Game, player: Player)
    modifies game
    ensures game.players == RemoveAsWritten(old(game.players), player.id)
    ensures CountId(old(game.players), player.id) <= 1 ==>
            game.players == WithoutId(old(game.players), player.id) && player !in game.players
    ensures game.state == old(game.state) && game.placedPieces == old(game.placedPieces)
    ensures game.gameEnded == old(game.gameEnded) && game.currPlayer == old(game.currPlayer)
    ensures game.currPlayerIndex == old(game.currPlayerIndex) && game.gameStarted == old(game.gameStarted)
  {
    game.RemovePlayer(player.id);
    if CountId(old(game.players), player.id) <= 1 {
      RemoveSingleMatch(old(game.players), player.id);
      WithoutIdDropsIt(old(game.players), player);
    }
  }

  lemma {:induction false} WithoutIdDropsIt(players: seq<Player>, player: Player)
    ensures player !in WithoutId(players, player.id)
  {
    if players != [] {
      WithoutIdDropsIt(players[1..], player);
    }
  }
}
