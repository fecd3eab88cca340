/**
 * The per-user session of the bot (`context.user_data`) and the resolution
 * of a window button's callback data against the window list stored there.
 */
module Session {
  import opened Common
  import opened Text
  import opened Windows
  import opened WindowsReply

  /**
   * The session dictionary of one Telegram user. Only the `windows_list`
   * entry is used: absent until the first non-empty `/windows`.
   */
  class UserData {
    var windowsList: Option<seq<WindowInfo>>

    constructor ()
      ensures windowsList == None
    {
      windowsList := None;
    }
  }

  /** What a callback's data selects. */
  datatype Resolution =
    | Ignored            // not a window button: the handler returns silently
    | Unparsable         // `int()` raised: the handler's generic failure
    | NotFound           // index not below the list length: "Окно не найдено"
    | OutOfRange         // negative index past the front: `IndexError`, the generic failure
    | Found(window: WindowInfo)

  /**
   * The index lookup of `handle_window_callback`: the list is the stored one
   * or empty; only the upper bound is checked, so a negative index counts
   * from the end as Python indexing does.
   */
  function Lookup(stored: Option<seq<WindowInfo>>, index: int): (r: Resolution)
    ensures r.Found? ==> r.window in stored.GetOr([])
    ensures r == NotFound <==> index >= |stored.GetOr([])|
    ensures r == OutOfRange <==> index < -|stored.GetOr([])|
    ensures 0 <= index < |stored.GetOr([])| ==> r == Found(stored.value[index])
    ensures -|stored.GetOr([])| <= index < 0 ==> r == Found(stored.value[|stored.value| + index])
  {
    var list := stored.GetOr([]);
    if index >= |list| then NotFound
    else if index >= 0 then Found(list[index])
    else if index >= -|list| then Found(list[|list| + index])
    else OutOfRange
  }

  /**
   * The resolution of a callback's data: it must start with "window_";
   * every "window_" in it is removed and the rest read by `int()`.
   */
  function Resolve(stored: Option<seq<WindowInfo>>, data: string): (r: Resolution)
    ensures r.Found? ==> r.window in stored.GetOr([])
  {
    if !StartsWith(data, CallbackPrefix) then Ignored
    else
      match ParseInt(RemoveAll(data, CallbackPrefix))
      case None => Unparsable
      case Some(index) => Lookup(stored, index)
  }

  /** No decimal numeral holds "window_". */
  lemma DecimalHasNoPrefix(n: nat)
    ensures !Contains(NatToDecimal(n), CallbackPrefix)
  {
    var d := NatToDecimal(n);
    forall k | 0 <= k <= |d| - |CallbackPrefix| ensures !OccursAt(d, CallbackPrefix, k) {
      assert d[k..k + |CallbackPrefix|][0] == d[k];
      assert IsDigit(d[k]);
    }
  }

  /** Removing every "window_" from "window_" followed by `rest` is removing them from `rest`. */
  lemma RemovePrefixFirst(rest: string)
    ensures RemoveAll(CallbackPrefix + rest, CallbackPrefix) == RemoveAll(rest, CallbackPrefix)
  {
    var s := CallbackPrefix + rest;
    assert s[..|CallbackPrefix|] == CallbackPrefix;
    assert s[|CallbackPrefix|..] == rest;
  }

  /** The data of button `i` reads back as index `i`. */
  lemma CallbackIndex(i: nat)
    ensures StartsWith(CallbackData(i), CallbackPrefix)
    ensures ParseInt(RemoveAll(CallbackData(i), CallbackPrefix)) == Some(i)
  {
    var d := NatToDecimal(i);
    assert CallbackData(i)[..|CallbackPrefix|] == CallbackPrefix;
    RemovePrefixFirst(d);
    DecimalHasNoPrefix(i);
    RemoveAllSpec(d, CallbackPrefix);
    ParseIntOfDecimal(i);
  }

  /**
   * Pressing button `i` of the keyboard built for a list selects window `i`
   * of that list, once the list is stored in the session.
   */
  lemma ResolveButton(windows: seq<WindowInfo>, i: nat)
    requires i < |Buttons(windows)|
    ensures Resolve(Some(windows), Buttons(windows)[i].callbackData) == Found(windows[i])
  {
    CallbackIndex(i);
  }

  /** Data that does not start with "window_" is ignored, whatever the session holds. */
  lemma ResolveOtherData(stored: Option<seq<WindowInfo>>, data: string)
    requires !StartsWith(data, CallbackPrefix)
    ensures Resolve(stored, data) == Ignored
  {
  }

  /** An index at or beyond the stored length, or any non-negative one with no session, is not found. */
  lemma ResolveBeyondList(stored: Option<seq<WindowInfo>>, i: nat)
    requires i >= |stored.GetOr([])|
    ensures Resolve(stored, CallbackData(i)) == NotFound
  {
    CallbackIndex(i);
  }

  /**
   * A payload with no digit left after the removal is one `int()` rejects,
   * and gives the generic failure.
   */
  lemma ResolveUnparsable(stored: Option<seq<WindowInfo>>, rest: string)
    requires forall i :: 0 <= i < |rest| ==> !IsDigit(rest[i])
    ensures Resolve(stored, CallbackPrefix + rest) == Unparsable
  {
    var data := CallbackPrefix + rest;
    assert StartsWith(data, CallbackPrefix) by {
      assert data[..|CallbackPrefix|] == CallbackPrefix;
    }
    RemovePrefixFirst(rest);
    var t := RemoveAll(rest, CallbackPrefix);
    var u := Strip(t);
    StripChars(t);
    forall i | 0 <= i < |u| ensures !IsDigit(u[i]) {
      assert u[i] in t;
      var j :| 0 <= j < |rest| && rest[j] == u[i];
    }
  }

  /** "window_-1" selects the last window: the bound check has no lower half. */
  lemma ResolveNegativeIndex(windows: seq<WindowInfo>)
    requires |windows| > 0
    ensures Resolve(Some(windows), CallbackPrefix + "-1") == Found(windows[|windows| - 1])
  {
    var data := CallbackPrefix + "-1";
    assert StartsWith(data, CallbackPrefix) by {
      assert data[..|CallbackPrefix|] == CallbackPrefix;
    }
    assert RemoveAll(data, CallbackPrefix) == "-1" by {
      RemovePrefixFirst("-1");
    }
    assert ParseInt("-1") == Some(-1) by {
      assert IntToDecimal(-1) == "-1";
      ParseIntOfDecimal(-1);
    }
    assert Lookup(Some(windows), -1) == Found(windows[|windows| - 1]);
  }

  /** Every "window_" is removed, so a doubled prefix selects the same as a single one. */
  lemma ResolveDoubledPrefix(stored: Option<seq<WindowInfo>>, rest: string)
    ensures Resolve(stored, CallbackPrefix + CallbackPrefix + rest) == Resolve(stored, CallbackPrefix + rest)
  {
    var once := CallbackPrefix + rest;
    var twice := CallbackPrefix + CallbackPrefix + rest;
    assert twice == CallbackPrefix + once;
    assert StartsWith(twice, CallbackPrefix) by {
      assert twice[..|CallbackPrefix|] == CallbackPrefix;
    }
    assert StartsWith(once, CallbackPrefix) by {
      assert once[..|CallbackPrefix|] == CallbackPrefix;
    }
    RemovePrefixFirst(once);
    RemovePrefixFirst(rest);
    assert RemoveAll(twice, CallbackPrefix) == RemoveAll(once, CallbackPrefix);
  }
}
