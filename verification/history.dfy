/** The game-history list: every archived game file is summarised (won or
    lost, difficulty) and the summaries are listed newest first. */
module History {
  import opened Optional
  import opened Minesweeper
  import Scoreboard

  /** The difficulty named by a board size and mine count. */
  function GetDifficulty(width: int, height: int, mines: int): (r: string)
    ensures r == "Easy" <==> width == 9 && height == 9 && mines == 10
    ensures r == "Medium" <==> width == 16 && height == 16 && mines == 40
    ensures r == "Hard" <==> width == 30 && height == 16 && mines == 99
    ensures r == "Custom" <==> (!(width == 9 && height == 9 && mines == 10)
                                && !(width == 16 && height == 16 && mines == 40)
                                && !(width == 30 && height == 16 && mines == 99))
  {
    if width == 9 && height == 9 && mines == 10 then "Easy"
    else if width == 16 && height == 16 && mines == 40 then "Medium"
    else if width == 30 && height == 16 && mines == 99 then "Hard"
    else "Custom"
  }

  /** A won game can be entered on the scoreboard exactly when its difficulty
      is one of the three named ones: the ledger has no "Custom" list. */
  lemma DifficultyHasLedger(width: int, height: int, mines: int)
    ensures GetDifficulty(width, height, mines) in Scoreboard.DefaultScores() <==>
            GetDifficulty(width, height, mines) != "Custom"
  {
    var d := GetDifficulty(width, height, mines);
    assert Scoreboard.DefaultScores().Keys == {"Easy", "Medium", "Hard"};
    if d == "Custom" {
      assert d != "Easy" && d != "Medium" && d != "Hard";
    }
  }

  /** The scan reads revealed rows 0..|revealed| and columns 0..|revealed[0]|
      of both grids, so those cells must exist. */
  predicate Scannable(board: seq<seq<int>>, revealed: seq<seq<bool>>) {
    && |board| >= |revealed|
    && forall y :: 0 <= y < |revealed| ==> |revealed[y]| >= |revealed[0]| && |board[y]| >= |revealed[0]|
  }

  /** Some scanned cell in the first `rows` rows, or in row `rows` before
      column `cols`, is a revealed mine. */
  predicate MineBefore(board: seq<seq<int>>, revealed: seq<seq<bool>>, rows: int, cols: int)
    requires Scannable(board, revealed) && 0 <= rows <= |revealed|
    requires rows < |revealed| ==> 0 <= cols <= |revealed[0]|
  {
    || (exists j, i :: 0 <= j < rows && 0 <= i < |revealed[0]| && board[j][i] == -1 && revealed[j][i])
    || (rows < |revealed| && exists i :: 0 <= i < cols && board[rows][i] == -1 && revealed[rows][i])
  }

  /** Some scanned cell is a revealed mine. */
  predicate MineShown(board: seq<seq<int>>, revealed: seq<seq<bool>>)
    requires Scannable(board, revealed)
  {
    MineBefore(board, revealed, |revealed|, 0)
  }

  /** The won flag of a history entry: scans the cells row by row and clears
      the flag at a revealed mine, leaving that row early. */
  method ScanWon(board: seq<seq<int>>, revealed: seq<seq<bool>>) returns (won: bool)
    requires Scannable(board, revealed)
    ensures won <==> !MineShown(board, revealed)
  {
    won := true;
    var y := 0;
    while y < |revealed|
      invariant 0 <= y <= |revealed|
      invariant won <==> !MineBefore(board, revealed, y, 0)
    {
      var x := 0;
      while x < |revealed[0]|
        invariant 0 <= x <= |revealed[0]|
        invariant won <==> !MineBefore(board, revealed, y, x)
      {
        if board[y][x] == -1 && revealed[y][x] {
          won := false;
          break;
        }
        x := x + 1;
      }
      if y + 1 < |revealed| {
        assert MineBefore(board, revealed, y + 1, 0) <==> MineBefore(board, revealed, y, |revealed[0]|);
      }
      y := y + 1;
    }
  }

  /** For a game the engine saved, the scan covers the whole board, so the
      game counts as won exactly when no mine cell is revealed. */
  lemma ScanCoversBoard(r: GameRecord)
    requires WellFormed(r)
    ensures Scannable(r.board, r.revealed)
    ensures MineShown(r.board, r.revealed) <==>
      exists y, x :: 0 <= y < r.height && 0 <= x < r.width && r.board[y][x] == -1 && r.revealed[y][x]
  {
    if MineShown(r.board, r.revealed) {
      var j, i :| 0 <= j < |r.revealed| && 0 <= i < |r.revealed[0]| && r.board[j][i] == -1 && r.revealed[j][i];
      assert 0 <= j < r.height && 0 <= i < r.width;
    }
    if exists y, x :: 0 <= y < r.height && 0 <= x < r.width && r.board[y][x] == -1 && r.revealed[y][x] {
      var j, i :| 0 <= j < r.height && 0 <= i < r.width && r.board[j][i] == -1 && r.revealed[j][i];
      assert |r.revealed[0]| == r.width;
      assert MineBefore(r.board, r.revealed, |r.revealed|, 0);
    }
  }

  /** One line of the history list. */
  datatype Entry = Entry(filename: string, timestamp: string, difficulty: string, won: bool, data: GameRecord)

  predicate IsJson(name: string) {
    |name| >= 5 && name[|name| - 5..] == ".json"
  }

  /** Every listed game file can be read and scanned. */
  predicate Readable(names: seq<string>, files: map<string, GameRecord>) {
    forall n :: n in names && IsJson(n) ==> n in files && Scannable(files[n].board, files[n].revealed)
  }

  /** The entry for the game file `name` holding `data`. */
  function Summary(name: string, data: GameRecord): Entry
    requires Scannable(data.board, data.revealed)
  {
    Entry(name, data.timestamp, GetDifficulty(data.width, data.height, data.mines),
          !MineShown(data.board, data.revealed), data)
  }

  /** The entries for the ".json" files among `names`, in listing order. */
  function Collected(names: seq<string>, files: map<string, GameRecord>): (r: seq<Entry>)
    requires Readable(names, files)
    ensures |r| <= |names|
  {
    if names == [] then []
    else
      var last := names[|names| - 1];
      var before := names[..|names| - 1];
      assert forall n :: n in before ==> n in names;
      var rest := Collected(before, files);
      rest + (if IsJson(last) then [Summary(last, files[last])] else [])
  }

  /** The collected entries are exactly the summaries of the listed ".json"
      files, and each entry's fields come from its own file. */
  lemma {:induction false} CollectedSpec(names: seq<string>, files: map<string, GameRecord>)
    requires Readable(names, files)
    ensures forall e :: e in Collected(names, files) <==> exists n :: n in names && IsJson(n) && e == Summary(n, files[n])
    ensures forall e :: e in Collected(names, files) ==>
      && e.filename in names && IsJson(e.filename) && e.filename in files
      && e.data == files[e.filename] && e.timestamp == e.data.timestamp
      && e.difficulty == GetDifficulty(e.data.width, e.data.height, e.data.mines)
      && Scannable(e.data.board, e.data.revealed)
      && (e.won <==> !MineShown(e.data.board, e.data.revealed))
  {
    if names != [] {
      var last := names[|names| - 1];
      var before := names[..|names| - 1];
      assert forall n :: n in names <==> n in before || n == last;
      CollectedSpec(before, files);
    }
  }

  /** Python's string order a <= b: code point by code point, a proper
      prefix first. */
  predicate LexLe(a: string, b: string) {
    if a == [] then true
    else if b == [] then false
    else if a[0] != b[0] then a[0] < b[0]
    else LexLe(a[1..], b[1..])
  }

  lemma {:induction false} LexLeTotal(a: string, b: string)
    ensures LexLe(a, b) || LexLe(b, a)
  {
    if a != [] && b != [] && a[0] == b[0] {
      LexLeTotal(a[1..], b[1..]);
    }
  }

  lemma {:induction false} LexLeTransitive(a: string, b: string, c: string)
    requires LexLe(a, b) && LexLe(b, c)
    ensures LexLe(a, c)
  {
    if a != [] && b != [] && c != [] && a[0] == b[0] && b[0] == c[0] {
      LexLeTransitive(a[1..], b[1..], c[1..]);
    }
  }

  /** Newest first: timestamps never increase along the list. */
  predicate SortedDesc(s: seq<Entry>) {
    forall i, j :: 0 <= i < j < |s| ==> LexLe(s[j].timestamp, s[i].timestamp)
  }

  /** Puts e in front of the first entry that is not newer than it. */
  function InsertDesc(e: Entry, s: seq<Entry>): (r: seq<Entry>)
    ensures multiset(r) == multiset(s) + multiset{e}
  {
    if s == [] || LexLe(s[0].timestamp, e.timestamp) then [e] + s
    else
      assert s == [s[0]] + s[1..];
      [s[0]] + InsertDesc(e, s[1..])
  }

  /** An entry and a list no newer than t insert into a list no newer than t. */
  lemma {:induction false} InsertDescBelow(e: Entry, s: seq<Entry>, t: string)
    requires LexLe(e.timestamp, t)
    requires forall k :: 0 <= k < |s| ==> LexLe(s[k].timestamp, t)
    ensures forall k :: 0 <= k < |InsertDesc(e, s)| ==> LexLe(InsertDesc(e, s)[k].timestamp, t)
  {
    var r := InsertDesc(e, s);
    if s == [] || LexLe(s[0].timestamp, e.timestamp) {
      assert forall k :: 0 < k < |r| ==> r[k] == s[k - 1];
    } else {
      var tail := InsertDesc(e, s[1..]);
      InsertDescBelow(e, s[1..], t);
      assert forall k :: 0 < k < |r| ==> r[k] == tail[k - 1];
    }
  }

  lemma {:induction false} InsertDescSorted(e: Entry, s: seq<Entry>)
    requires SortedDesc(s)
    ensures SortedDesc(InsertDesc(e, s))
  {
    var r := InsertDesc(e, s);
    if s == [] {
    } else if LexLe(s[0].timestamp, e.timestamp) {
      forall i, j | 0 <= i < j < |r|
        ensures LexLe(r[j].timestamp, r[i].timestamp)
      {
        if i == 0 {
          if j > 1 {
            LexLeTransitive(s[j - 1].timestamp, s[0].timestamp, e.timestamp);
          }
        } else {
          assert r[i] == s[i - 1] && r[j] == s[j - 1];
        }
      }
    } else {
      LexLeTotal(s[0].timestamp, e.timestamp);
      var tail := InsertDesc(e, s[1..]);
      assert SortedDesc(s[1..]);
      InsertDescSorted(e, s[1..]);
      assert forall k :: 0 <= k < |s[1..]| ==> s[1..][k] == s[k + 1];
      InsertDescBelow(e, s[1..], s[0].timestamp);
      forall i, j | 0 <= i < j < |r|
        ensures LexLe(r[j].timestamp, r[i].timestamp)
      {
        if i == 0 {
          assert r[j] == tail[j - 1];
        } else {
          assert r[i] == tail[i - 1] && r[j] == tail[j - 1];
        }
      }
    }
  }

  /** sorted(entries, key=timestamp, reverse=True): an insertion sort that
      keeps entries with equal timestamps in their listing order. */
  function SortDesc(s: seq<Entry>): (r: seq<Entry>)
    ensures multiset(r) == multiset(s)
  {
    if s == [] then []
    else
      assert s == [s[0]] + s[1..];
      InsertDesc(s[0], SortDesc(s[1..]))
  }

  lemma {:induction false} SortDescSorted(s: seq<Entry>)
    ensures SortedDesc(SortDesc(s))
  {
    if s != [] {
      SortDescSorted(s[1..]);
      InsertDescSorted(s[0], SortDesc(s[1..]));
    }
  }

  /** The history list: reads every ".json" file of the archive directory
      (none when the directory does not exist), summarises it, and sorts the
      summaries newest first. */
  method LoadGameHistory(dir: Option<seq<string>>, files: map<string, GameRecord>) returns (games: seq<Entry>)
    requires dir.Some? ==> Readable(dir.value, files)
    ensures dir.None? ==> games == []
    ensures dir.Some? ==> games == SortDesc(Collected(dir.value, files))
    ensures dir.Some? ==> multiset(games) == multiset(Collected(dir.value, files))
    ensures SortedDesc(games)
  {
    var collected: seq<Entry> := [];
    if dir.Some? {
      var names := dir.value;
      var i := 0;
      while i < |names|
        invariant 0 <= i <= |names|
        invariant Readable(names[..i], files)
        invariant collected == Collected(names[..i], files)
      {
        var name := names[i];
        assert names[..i + 1][..i] == names[..i];
        assert Readable(names[..i + 1], files);
        assert Collected(names[..i + 1], files) ==
          Collected(names[..i], files) + (if IsJson(name) then [Summary(name, files[name])] else []);
        if IsJson(name) {
          var data := files[name];
          var won := ScanWon(data.board, data.revealed);
          var difficulty := GetDifficulty(data.width, data.height, data.mines);
          collected := collected + [Entry(name, data.timestamp, difficulty, won, data)];
        }
        i := i + 1;
      }
      assert names[..i] == names;
    }
    games := SortDesc(collected);
    SortDescSorted(collected);
  }
}
