/**
 * The reply to `/windows`: the text listing the first ten windows and the
 * inline keyboard with one button for each of the first twenty, laid out
 * one per row or, when there are more than ten, two per row.
 */
module WindowsReply {
  import opened Common
  import opened Text
  import opened Windows

  const MaxListed: nat := 10
  const MaxButtons: nat := 20
  const MaxRows: nat := 10
  const LineLimit: nat := 60
  const LabelLimit: nat := 25
  const CallbackPrefix: string := "window_"

  // ---------------------------------------------------------------------
  // The message

  /** `[M]` for a minimized window, `[A]` for a maximized or active one, `[N]` otherwise. */
  function StatusIcon(w: WindowInfo): (icon: string)
    ensures icon == "[M]" <==> w.minimized
    ensures icon == "[N]" <==> !w.minimized && !w.maximized && !w.active
    ensures icon == "[A]" <==> !w.minimized && (w.maximized || w.active)
  {
    var icon := if w.active then "[A]" else "[N]";
    if w.minimized then "[M]"
    else if w.maximized then "[A]"
    else icon
  }

  /** "<icon> <process> - <title>", cut to 57 characters and "..." when longer than 60. */
  function WindowLine(w: WindowInfo): (line: string)
    ensures |line| <= 60
  {
    Shorten(StatusIcon(w) + " " + w.process + Separator + w.title, LineLimit)
  }

  const HeaderOpen: string := "Список открытых окон ("
  const OverflowOpen: string := "... и еще "
  const OverflowClose: string := " окон"

  /** The first line: the number of windows found, in parentheses. */
  function HeaderLine(count: nat): (line: string)
    ensures StartsWith(line, HeaderOpen) && |HeaderOpen| < |line| && line[|line| - 1] == ')'
  {
    var line := HeaderOpen + NatToDecimal(count) + ")";
    assert line[..|HeaderOpen|] == HeaderOpen;
    line
  }

  /** The number in the header reads back as the count of windows. */
  lemma HeaderCount(count: nat)
    ensures var line := HeaderLine(count);
      ParseInt(line[|HeaderOpen|..|line| - 1]) == Some(count)
  {
    var line := HeaderLine(count);
    assert line[|HeaderOpen|..|line| - 1] == NatToDecimal(count);
    ParseIntOfDecimal(count);
  }

  /** The last line when more than ten windows were found: how many were not listed. */
  function OverflowLine(hidden: nat): (line: string)
    ensures StartsWith(line, OverflowOpen) && |OverflowOpen| + |OverflowClose| < |line|
    ensures line[|line| - |OverflowClose|..] == OverflowClose
  {
    var line := OverflowOpen + NatToDecimal(hidden) + OverflowClose;
    assert line[..|OverflowOpen|] == OverflowOpen;
    assert line[|line| - |OverflowClose|..] == OverflowClose;
    line
  }

  /** The number in the overflow line reads back as the count of windows not listed. */
  lemma OverflowCount(hidden: nat)
    ensures var line := OverflowLine(hidden);
      ParseInt(line[|OverflowOpen|..|line| - |OverflowClose|]) == Some(hidden)
  {
    var line := OverflowLine(hidden);
    assert line[|OverflowOpen|..|line| - |OverflowClose|] == NatToDecimal(hidden);
    ParseIntOfDecimal(hidden);
  }

  /**
   * The lines of the message: header, timestamp, a blank line, one line for
   * each of the first ten windows, and the overflow line when there are more.
   */
  method MessageLines(windows: seq<WindowInfo>, timestamp: string) returns (lines: seq<string>)
    ensures |lines| == 3 + Min(|windows|, MaxListed) + (if |windows| > MaxListed then 1 else 0)
    ensures lines[0] == HeaderLine(|windows|) && lines[1] == timestamp && lines[2] == ""
    ensures forall i :: 0 <= i < Min(|windows|, MaxListed) ==> lines[3 + i] == WindowLine(windows[i])
    ensures forall i :: 3 <= i < 3 + Min(|windows|, MaxListed) ==> |lines[i]| <= LineLimit
    ensures |windows| > MaxListed ==> lines[|lines| - 1] == OverflowLine(|windows| - MaxListed)
  {
    lines := [HeaderLine(|windows|), timestamp, ""];
    var shown := Min(|windows|, MaxListed);
    var i := 0;
    while i < shown
      invariant 0 <= i <= shown
      invariant |lines| == 3 + i
      invariant lines[0] == HeaderLine(|windows|) && lines[1] == timestamp && lines[2] == ""
      invariant forall j :: 0 <= j < i ==> lines[3 + j] == WindowLine(windows[j])
    {
      lines := lines + [WindowLine(windows[i])];
      i := i + 1;
    }
    if |windows| > MaxListed {
      lines := lines + [OverflowLine(|windows| - MaxListed)];
    }
    forall i | 3 <= i < 3 + shown ensures |lines[i]| <= LineLimit {
      assert lines[i] == WindowLine(windows[i - 3]);
    }
  }

  /** The message text: the lines joined by newlines. */
  function MessageText(lines: seq<string>): string {
    Join(lines, "\n")
  }

  // ---------------------------------------------------------------------
  // The keyboard

  /** An inline keyboard button: its label and its callback data. */
  datatype Button = Button(text: string, callbackData: string)

  /** The button label: the process name, cut to 22 characters and "..." when longer than 25. */
  function ButtonLabel(w: WindowInfo): (caption: string)
    ensures |caption| <= 25
    ensures |w.process| <= 25 ==> caption == w.process
  {
    Shorten(w.process, LabelLimit)
  }

  /** `f"window_{i}"`: the button prefix followed by at least one digit. */
  function CallbackData(i: nat): (data: string)
    ensures StartsWith(data, CallbackPrefix) && |data| > |CallbackPrefix|
  {
    var data := CallbackPrefix + NatToDecimal(i);
    assert data[..|CallbackPrefix|] == CallbackPrefix;
    data
  }

  /** The buttons for the first twenty windows, in list order. */
  function Buttons(windows: seq<WindowInfo>): (bs: seq<Button>)
    ensures |bs| == Min(|windows|, MaxButtons)
  {
    seq(Min(|windows|, MaxButtons), i requires 0 <= i < Min(|windows|, MaxButtons)
      => Button(ButtonLabel(windows[i]), CallbackData(i)))
  }

  /** The buttons of the rows, row by row. */
  function Flatten(rows: seq<seq<Button>>): seq<Button>
    decreases |rows|
  {
    if rows == [] then [] else rows[0] + Flatten(rows[1..])
  }

  lemma {:induction false} FlattenAppend(rows: seq<seq<Button>>, row: seq<Button>)
    ensures Flatten(rows + [row]) == Flatten(rows) + row
    decreases |rows|
  {
    if rows != [] {
      assert (rows + [row])[1..] == rows[1..] + [row];
      FlattenAppend(rows[1..], row);
    } else {
      assert [row][1..] == [];
    }
  }

  /** Row `j` of the paired layout: buttons `2j` and, when it exists, `2j + 1`. */
  function PairAt(bs: seq<Button>, j: nat): (row: seq<Button>)
    requires 2 * j < |bs|
    ensures 1 <= |row| <= 2
  {
    if 2 * j + 1 < |bs| then [bs[2 * j], bs[2 * j + 1]] else [bs[2 * j]]
  }

  /**
   * The layout of the keyboard: one button per row for at most ten buttons,
   * otherwise pairs, keeping at most ten rows.
   */
  function Layout(bs: seq<Button>): (rows: seq<seq<Button>>)
    ensures |rows| <= MaxRows
    ensures forall j :: 0 <= j < |rows| ==> 1 <= |rows[j]| <= 2
  {
    if |bs| <= MaxRows then seq(|bs|, i requires 0 <= i < |bs| => [bs[i]])
    else
      var pairs := PairedRows(bs);
      pairs[..Min(|pairs|, MaxRows)]
  }

  lemma {:induction false} FlattenSingles(bs: seq<Button>)
    ensures Flatten(seq(|bs|, i requires 0 <= i < |bs| => [bs[i]])) == bs
    decreases |bs|
  {
    if bs != [] {
      var rows := seq(|bs|, i requires 0 <= i < |bs| => [bs[i]]);
      assert rows[1..] == seq(|bs[1..]|, i requires 0 <= i < |bs[1..]| => [bs[1..][i]]);
      FlattenSingles(bs[1..]);
      assert bs == [bs[0]] + bs[1..];
    }
  }

  /** The paired rows of `bs`. */
  function PairedRows(bs: seq<Button>): (rows: seq<seq<Button>>)
    ensures |rows| == (|bs| + 1) / 2
  {
    seq((|bs| + 1) / 2, j requires 0 <= j < (|bs| + 1) / 2 => PairAt(bs, j))
  }

  /** Past the first pair, the rows are those of the remaining buttons. */
  lemma PairedRowsTail(bs: seq<Button>)
    requires |bs| >= 2
    ensures PairedRows(bs)[0] == bs[..2] && PairedRows(bs)[1..] == PairedRows(bs[2..])
  {
    var rows, restRows := PairedRows(bs), PairedRows(bs[2..]);
    forall j | 0 <= j < |restRows| ensures rows[1..][j] == restRows[j] {
      assert rows[1..][j] == PairAt(bs, j + 1);
    }
  }

  lemma {:induction false} FlattenPairs(bs: seq<Button>)
    ensures Flatten(PairedRows(bs)) == bs
    decreases |bs|
  {
    var rows := PairedRows(bs);
    if |bs| == 1 {
      assert rows == [[bs[0]]];
      assert rows[1..] == [];
    } else if |bs| >= 2 {
      PairedRowsTail(bs);
      FlattenPairs(bs[2..]);
      assert bs == bs[..2] + bs[2..];
    }
  }

  /**
   * For at most twenty buttons, the layout has at most ten rows, holds every
   * button once and in order, and its rows hold one button each when there
   * are at most ten buttons, and two each (but perhaps the last) otherwise.
   */
  lemma LayoutSpec(bs: seq<Button>)
    requires |bs| <= MaxButtons
    ensures |Layout(bs)| <= MaxRows
    ensures Flatten(Layout(bs)) == bs
    ensures |bs| <= MaxRows ==> forall r :: r in Layout(bs) ==> |r| == 1
    ensures |bs| > MaxRows ==> forall j :: 0 <= j < |Layout(bs)| - 1 ==> |Layout(bs)[j]| == 2
  {
    if |bs| <= MaxRows {
      FlattenSingles(bs);
    } else {
      var pairs := PairedRows(bs);
      assert pairs[..Min(|pairs|, MaxRows)] == pairs;
      FlattenPairs(bs);
    }
  }

  /**
   * The pairing step of `handle_windows_command`: the first button of rows
   * `2j` and `2j + 1` (when there is one) make row `j`.
   */
  method PairRows(rows: seq<seq<Button>>) returns (paired: seq<seq<Button>>)
    requires forall j :: 0 <= j < |rows| ==> |rows[j]| > 0
    ensures |paired| == (|rows| + 1) / 2
    ensures forall j :: 0 <= j < |paired| ==>
      paired[j] == [rows[2 * j][0]] + (if 2 * j + 1 < |rows| then [rows[2 * j + 1][0]] else [])
  {
    paired := [];
    var k := 0;
    while k < |rows|
      invariant 0 <= k <= |rows| + 1 && k % 2 == 0
      invariant |paired| == k / 2
      invariant forall j :: 0 <= j < k / 2 ==>
        paired[j] == [rows[2 * j][0]] + (if 2 * j + 1 < |rows| then [rows[2 * j + 1][0]] else [])
    {
      var row := [rows[k][0]];
      if k + 1 < |rows| {
        row := row + [rows[k + 1][0]];
      }
      paired := paired + [row];
      k := k + 2;
    }
  }

  /**
   * The keyboard of `handle_windows_command`: one single-button row per
   * window for the first twenty, re-laid in pairs when there are more than
   * ten rows, then cut to ten rows.
   */
  method BuildKeyboard(windows: seq<WindowInfo>) returns (keyboard: seq<seq<Button>>)
    ensures keyboard == Layout(Buttons(windows))
    ensures |keyboard| <= MaxRows
    ensures Flatten(keyboard) == Buttons(windows)
  {
    var bs := Buttons(windows);
    keyboard := [];
    var i := 0;
    while i < Min(|windows|, MaxButtons)
      invariant 0 <= i <= Min(|windows|, MaxButtons)
      invariant |keyboard| == i
      invariant forall j :: 0 <= j < i ==> keyboard[j] == [bs[j]]
    {
      keyboard := keyboard + [[Button(ButtonLabel(windows[i]), CallbackData(i))]];
      i := i + 1;
    }
    if |keyboard| > MaxRows {
      var paired := PairRows(keyboard);
      var pairs := PairedRows(bs);
      assert paired == pairs by {
        forall j | 0 <= j < |paired| ensures paired[j] == pairs[j] {
          assert keyboard[2 * j] == [bs[2 * j]];
          if 2 * j + 1 < |keyboard| {
            assert keyboard[2 * j + 1] == [bs[2 * j + 1]];
          }
        }
      }
      keyboard := paired[..Min(|paired|, MaxRows)];
    } else {
      assert keyboard == seq(|bs|, i requires 0 <= i < |bs| => [bs[i]]);
    }
    LayoutSpec(bs);
  }
}
