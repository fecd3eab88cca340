/**
 * `WindowService.get_window_list`: which of the operating system's windows
 * are listed, the record kept for each (with a process name guessed from the
 * title) and the order of the list. The windows themselves come from the
 * window library and are plain input records here.
 */
module Windows {
  import opened Text

  /** One window as the window library reports it. */
  datatype RawWindow = RawWindow(
    title: string,
    visible: bool,
    left: int, top: int, width: int, height: int,
    isMaximized: bool, isMinimized: bool, isActive: bool)

  /** The record built for a listed window (without the library's window object). */
  datatype WindowInfo = WindowInfo(
    title: string,
    process: string,
    position: string,
    size: string,
    maximized: bool, minimized: bool, active: bool)

  const Separator: string := " - "
  const ExeSuffix: string := ".exe"

  /**
   * A window is listed when it is visible, its title is non-empty and not
   * all whitespace (so that `title.strip()` is non-empty) and its area is
   * non-empty.
   */
  predicate Listed(w: RawWindow) {
    w.visible && w.title != "" && !Blank(w.title) && w.width > 0 && w.height > 0
  }

  /** The filter in the source's own terms: visible, `title.strip()` non-empty, positive area. */
  lemma ListedStripped(w: RawWindow)
    ensures Listed(w) <==> w.visible && Strip(w.title) != "" && w.width > 0 && w.height > 0
  {
    if Strip(w.title) != "" {
      assert w.title != "";
    }
  }

  /** `name.lower().replace(' ', '_')`. */
  function Normalized(name: string): (r: string)
    ensures |r| == |name|
    ensures forall i :: 0 <= i < |r| ==> r[i] != ' '
  {
    SpacesToUnderscores(Lower(name))
  }

  /**
   * The process-name guess for a stripped title: for "Document - Application"
   * the text after the last " - ", otherwise the whole title; stripped (after
   * a cut), lower-cased, spaces turned into underscores, and ".exe" appended.
   * Whatever the title, the name ends in ".exe" and holds no space.
   */
  function ProcessName(title: string): (r: string)
    ensures |r| >= 4 && r[|r| - 4..] == ".exe"
    ensures forall i :: 0 <= i < |r| ==> r[i] != ' '
  {
    var name := if Contains(title, Separator) then Strip(LastSegment(title, Separator)) else title;
    ExeName(name);
    Normalized(name) + ExeSuffix
  }

  /**
   * When the title holds " - ", the process name is made of a stripped tail
   * of the title that follows a " - " and holds none itself; otherwise of the
   * whole title.
   */
  lemma ProcessNameSpec(title: string)
    ensures var r := ProcessName(title);
      && (!Contains(title, Separator) ==> r == Normalized(title) + ".exe")
      && (Contains(title, Separator) ==>
            exists k :: 0 <= k <= |title| - 3 && OccursAt(title, Separator, k)
              && !Contains(title[k + 3..], Separator)
              && r == Normalized(Strip(title[k + 3..])) + ".exe")
  {
    if Contains(title, Separator) {
      var seg := LastSegment(title, Separator);
      LastSegmentSpec(title, Separator);
      var k := |title| - |seg| - 3;
      assert title[k + 3..] == seg;
    }
  }

  /** A normalized name with ".exe" appended ends in ".exe" and holds no space. */
  lemma ExeName(name: string)
    ensures var r := Normalized(name) + ExeSuffix;
      |r| >= 4 && r[|r| - 4..] == ".exe" && forall i :: 0 <= i < |r| ==> r[i] != ' '
  {
    var n := Normalized(name);
    var r := n + ExeSuffix;
    forall i | 0 <= i < |r| ensures r[i] != ' ' {
      if i < |n| { assert r[i] == n[i]; } else { assert r[i] == ".exe"[i - |n|]; }
    }
    assert r[|r| - 4..] == ExeSuffix;
  }

  /** The record for one listed window; position is "left, top" and size is "WxH". */
  function Info(w: RawWindow): (i: WindowInfo)
    ensures i.title == Strip(w.title) && i.process == ProcessName(Strip(w.title))
    ensures i.active == w.isActive && i.minimized == w.isMinimized && i.maximized == w.isMaximized
  {
    var title := Strip(w.title);
    WindowInfo(
      title,
      ProcessName(title),
      IntToDecimal(w.left) + ", " + IntToDecimal(w.top),
      IntToDecimal(w.width) + "x" + IntToDecimal(w.height),
      w.isMaximized, w.isMinimized, w.isActive)
  }

  /** The listed windows, in enumeration order. */
  function ListedWindows(all: seq<RawWindow>): (r: seq<RawWindow>)
    ensures |r| <= |all|
    ensures forall w :: w in r ==> Listed(w) && w in all
    decreases |all|
  {
    if all == [] then []
    else
      var last := all[|all| - 1];
      ListedWindows(all[..|all| - 1]) + (if Listed(last) then [last] else [])
  }

  /** Every listed window is kept, and when all are listed nothing is dropped. */
  lemma {:induction false} ListedWindowsComplete(all: seq<RawWindow>)
    ensures forall w :: w in all && Listed(w) ==> w in ListedWindows(all)
    ensures (forall w :: w in all ==> Listed(w)) ==> ListedWindows(all) == all
    decreases |all|
  {
    if all != [] {
      var init := all[..|all| - 1];
      ListedWindowsComplete(init);
      assert all == init + [all[|all| - 1]];
      assert forall w :: w in init ==> w in all;
    }
  }

  /** The records of some windows, in their order. */
  function Records(ws: seq<RawWindow>): (r: seq<WindowInfo>)
    ensures |r| == |ws|
  {
    seq(|ws|, i requires 0 <= i < |ws| => Info(ws[i]))
  }

  /** The records of the listed windows, in enumeration order. */
  function Collected(all: seq<RawWindow>): seq<WindowInfo> {
    Records(ListedWindows(all))
  }

  /** The records of a list with one more window are those of the list and the new one's. */
  lemma RecordsAppend(ws: seq<RawWindow>, w: RawWindow)
    ensures Records(ws + [w]) == Records(ws) + [Info(w)]
  {
    var r := Records(ws + [w]);
    forall j | 0 <= j < |r| ensures r[j] == (Records(ws) + [Info(w)])[j] {
      if j < |ws| { assert (ws + [w])[j] == ws[j]; }
    }
  }

  /** One more window enumerated adds its record when it is listed. */
  lemma CollectedStep(all: seq<RawWindow>, i: nat)
    requires i < |all|
    ensures Collected(all[..i + 1]) == Collected(all[..i]) + (if Listed(all[i]) then [Info(all[i])] else [])
  {
    var prefix := all[..i + 1];
    assert prefix[..i] == all[..i] && prefix[i] == all[i];
    var before := ListedWindows(all[..i]);
    assert ListedWindows(prefix) == before + (if Listed(all[i]) then [all[i]] else []);
    if Listed(all[i]) {
      RecordsAppend(before, all[i]);
    }
  }

  // ---------------------------------------------------------------------
  // Order: key (not active, title.lower())

  /** `(not a.active, a.title.lower()) < (not b.active, b.title.lower())`. */
  predicate KeyLess(a: WindowInfo, b: WindowInfo)
    ensures KeyLess(a, b) ==> a.active || !b.active
  {
    (a.active && !b.active) || (a.active == b.active && StrLess(Lower(a.title), Lower(b.title)))
  }

  /** Equal sort keys. */
  predicate SameKey(a: WindowInfo, b: WindowInfo) {
    a.active == b.active && Lower(a.title) == Lower(b.title)
  }

  /** No record is followed by one with a smaller key. */
  predicate Sorted(s: seq<WindowInfo>) {
    forall i, j :: 0 <= i < j < |s| ==> !KeyLess(s[j], s[i])
  }

  lemma KeyLessIrreflexive(a: WindowInfo)
    ensures !KeyLess(a, a)
  {
    StrLessIrreflexive(Lower(a.title));
  }

  lemma KeyLessAsymmetric(a: WindowInfo, b: WindowInfo)
    requires KeyLess(a, b)
    ensures !KeyLess(b, a)
  {
    if a.active == b.active {
      StrLessAsymmetric(Lower(a.title), Lower(b.title));
    }
  }

  /** Neither key is smaller exactly when the keys are equal. */
  lemma KeyLessTotal(a: WindowInfo, b: WindowInfo)
    ensures !KeyLess(a, b) && !KeyLess(b, a) <==> SameKey(a, b)
  {
    if SameKey(a, b) {
      StrLessIrreflexive(Lower(a.title));
    } else if a.active == b.active {
      StrLessTotal(Lower(a.title), Lower(b.title));
    }
  }

  /** Not-smaller is transitive: the key order is a total preorder. */
  lemma KeyLeTransitive(a: WindowInfo, b: WindowInfo, c: WindowInfo)
    requires !KeyLess(b, a) && !KeyLess(c, b)
    ensures !KeyLess(c, a)
  {
    if KeyLess(c, a) {
      if a.active == b.active && b.active == c.active {
        var la, lb, lc := Lower(a.title), Lower(b.title), Lower(c.title);
        if la != lb {
          StrLessTotal(la, lb);
          StrLessTransitive(lc, la, lb);
        }
      }
    }
  }

  /**
   * Insert `x` before the first record whose key is not smaller than its
   * own, so that it stays ahead of records with an equal key.
   */
  function Insert(x: WindowInfo, s: seq<WindowInfo>): (r: seq<WindowInfo>)
    ensures multiset(r) == multiset(s) + multiset{x}
    decreases |s|
  {
    if s == [] then [x]
    else if KeyLess(s[0], x) then
      assert s == [s[0]] + s[1..];
      [s[0]] + Insert(x, s[1..])
    else [x] + s
  }

  /** `list.sort(key=...)`: Python's sort is stable. */
  function SortWindows(s: seq<WindowInfo>): (r: seq<WindowInfo>)
    ensures multiset(r) == multiset(s)
    decreases |s|
  {
    if s == [] then []
    else
      assert s == [s[0]] + s[1..];
      Insert(s[0], SortWindows(s[1..]))
  }

  lemma {:induction false} InsertSorted(x: WindowInfo, s: seq<WindowInfo>)
    requires Sorted(s)
    ensures Sorted(Insert(x, s))
    decreases |s|
  {
    var r := Insert(x, s);
    if s == [] {
    } else if KeyLess(s[0], x) {
      var t := s[1..];
      InsertSorted(x, t);
      var rest := Insert(x, t);
      forall j | 0 < j < |r| ensures !KeyLess(r[j], r[0]) {
        assert r[j] == rest[j - 1];
        assert r[j] in multiset(rest);
        if r[j] == x {
          KeyLessAsymmetric(s[0], x);
        } else {
          assert r[j] in multiset(t);
          var m :| 0 <= m < |t| && t[m] == r[j];
          assert s[m + 1] == r[j];
        }
      }
    } else {
      forall j | 0 < j < |r| ensures !KeyLess(r[j], r[0]) {
        assert r[j] == s[j - 1];
        if j > 1 {
          KeyLeTransitive(x, s[0], s[j - 1]);
        }
      }
    }
  }

  /** The sorted list is sorted by the key. */
  lemma {:induction false} SortWindowsSorted(s: seq<WindowInfo>)
    ensures Sorted(SortWindows(s))
    decreases |s|
  {
    if s != [] {
      SortWindowsSorted(s[1..]);
      InsertSorted(s[0], SortWindows(s[1..]));
    }
  }

  /** The records of `s` whose key equals that of `k`, in order. */
  function WithKey(s: seq<WindowInfo>, k: WindowInfo): seq<WindowInfo>
    decreases |s|
  {
    if s == [] then []
    else (if SameKey(s[0], k) then [s[0]] else []) + WithKey(s[1..], k)
  }

  /** Insertion passes only records with a smaller key, so `x` goes ahead of its equals. */
  lemma WithKeyCons(y: WindowInfo, t: seq<WindowInfo>, k: WindowInfo)
    ensures WithKey([y] + t, k) == (if SameKey(y, k) then [y] else []) + WithKey(t, k)
  {
    assert ([y] + t)[0] == y && ([y] + t)[1..] == t;
  }

  lemma {:induction false} InsertStable(x: WindowInfo, s: seq<WindowInfo>, k: WindowInfo)
    ensures WithKey(Insert(x, s), k) == (if SameKey(x, k) then [x] else []) + WithKey(s, k)
    decreases |s|
  {
    if s == [] {
      WithKeyCons(x, [], k);
    } else if KeyLess(s[0], x) {
      var t := s[1..];
      assert Insert(x, s) == [s[0]] + Insert(x, t);
      assert s == [s[0]] + t;
      InsertStable(x, t, k);
      WithKeyCons(s[0], Insert(x, t), k);
      WithKeyCons(s[0], t, k);
      var rest := WithKey(t, k);
      if SameKey(s[0], k) {
        KeyLessTotal(s[0], x);
        assert !SameKey(x, k);
        assert WithKey(Insert(x, s), k) == [s[0]] + rest;
      } else {
        assert WithKey(Insert(x, s), k) == (if SameKey(x, k) then [x] else []) + rest;
      }
    } else {
      assert Insert(x, s) == [x] + s;
      WithKeyCons(x, s, k);
    }
  }

  /** Records with equal keys keep their relative order: the sort is stable. */
  lemma {:induction false} SortWindowsStable(s: seq<WindowInfo>, k: WindowInfo)
    ensures WithKey(SortWindows(s), k) == WithKey(s, k)
    decreases |s|
  {
    if s != [] {
      SortWindowsStable(s[1..], k);
      InsertStable(s[0], SortWindows(s[1..]), k);
    }
  }

  /** The sort gives a sorted, stable permutation. */
  lemma SortWindowsSpec(s: seq<WindowInfo>)
    ensures Sorted(SortWindows(s))
    ensures multiset(SortWindows(s)) == multiset(s)
    ensures forall k :: WithKey(SortWindows(s), k) == WithKey(s, k)
  {
    SortWindowsSorted(s);
    forall k ensures WithKey(SortWindows(s), k) == WithKey(s, k) {
      SortWindowsStable(s, k);
    }
  }

  /** Active windows come before every inactive one. */
  lemma ActiveFirst(s: seq<WindowInfo>, i: int, j: int)
    requires Sorted(s) && 0 <= i < |s| && 0 <= j < |s|
    requires s[i].active && !s[j].active
    ensures i < j
  {
  }

  /** The enumeration loop of `get_window_list`: the record of each listed window, in order. */
  method CollectWindows(all: seq<RawWindow>) returns (collected: seq<WindowInfo>)
    ensures collected == Collected(all)
  {
    collected := [];
    var i := 0;
    while i < |all|
      invariant 0 <= i <= |all|
      invariant collected == Collected(all[..i])
    {
      CollectedStep(all, i);
      if Listed(all[i]) {
        collected := collected + [Info(all[i])];
      }
      i := i + 1;
    }
    assert all[..|all|] == all;
  }

  /**
   * `get_window_list`: collect the records of the listed windows, then sort
   * them by (not active, lower-cased title), stably.
   */
  method GetWindowList(all: seq<RawWindow>) returns (windows: seq<WindowInfo>)
    ensures windows == SortWindows(Collected(all))
    ensures Sorted(windows)
    ensures multiset(windows) == multiset(Collected(all))
    ensures forall k :: WithKey(windows, k) == WithKey(Collected(all), k)
  {
    var collected := CollectWindows(all);
    windows := SortWindows(collected);
    SortWindowsSpec(collected);
  }
}
