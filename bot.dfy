/**
 * `SoraClientBot`: the configuration it keeps after start-up, the
 * administrator check, the usage counters and the command and callback
 * handlers, with the capture, camera, window-activation and Telegram calls
 * reduced to their outcomes.
 */
module Bot {
  import opened Common
  import opened Text
  import opened PyJson
  import opened ConfigStore
  import opened Windows
  import opened WindowsReply
  import opened Session

  /**
   * `str(user_id) == admin_id`: nobody matches while no administrator is
   * configured, and a stored id with a leading zero matches at most user 0.
   */
  predicate IsAdmin(adminId: Option<string>, userId: int)
    ensures adminId.None? ==> !IsAdmin(adminId, userId)
    ensures IsAdmin(adminId, userId) ==> adminId.value != "" && (adminId.value[0] == '0' ==> userId == 0)
  {
    if userId >= 0 then NoLeadingZero(userId); adminId == Some(IntToDecimal(userId))
    else adminId == Some(IntToDecimal(userId))
  }

  /** At most one user is the administrator. */
  lemma AdminUnique(adminId: Option<string>, u: int, v: int)
    requires IsAdmin(adminId, u) && IsAdmin(adminId, v)
    ensures u == v
  {
    IntToDecimalInjective(u, v);
  }

  /** The administrator's id is the stored text read as an integer. */
  lemma AdminReadsBack(adminId: Option<string>, u: int)
    requires IsAdmin(adminId, u)
    ensures ParseInt(adminId.value) == Some(u)
  {
    ParseIntOfDecimal(u);
  }

  /** `initialize_bot` accepts a loaded configuration when both token and id are truthy. */
  predicate Accepts(l: Loaded) {
    Truthy(l.botToken) && Truthy(l.adminId)
  }

  /** The reply to `/start`: the command menu, or the caller's id with "access restricted". */
  datatype StartReply = AdminMenu | Restricted(userId: int)

  /** How the webcam capture went. */
  datatype CameraOutcome =
    | Photo            // a frame was captured
    | CameraMissing    // the capture raised "Камера недоступна"
    | CaptureError     // any other failure

  /** The reply to `/screenshot`, `/camera` and `/windows`. */
  datatype Reply =
    | Denied                      // "Недостаточно прав для выполнения команды"
    | Sent                        // the photo was sent
    | CameraUnavailable           // "Веб-камера недоступна или используется другим приложением"
    | NoWindows                   // "Открытых окон не найдено"
    | Listing(text: string, lines: seq<string>, keyboard: seq<seq<Button>>)
    | Failed                      // the handler's generic failure message

  /** The outcome of pressing a window button. */
  datatype CallbackReply =
    | CallbackDenied              // "Недостаточно прав для выполнения команды"
    | Silent                      // not a window button: nothing is sent
    | WindowNotFound              // "Окно не найдено"
    | ActivationFailed            // "Не удалось активировать окно"
    | Captured(process: string)   // "Скриншот создан для: <process>"
    | CallbackFailed              // "Не удалось создать скриншот окна"

  class SoraClientBot {
    var botToken: Json
    var adminId: Option<string>
    var configData: Json
    var commandCount: nat
    var screenshotCount: nat
    var photoCount: nat

    /**
     * Every screenshot and photo was also counted as a command, and an
     * administrator is only ever set together with a truthy token.
     */
    ghost predicate Valid()
      reads this
    {
      && screenshotCount + photoCount <= commandCount
      && (adminId.Some? ==> Truthy(botToken))
    }

    constructor ()
      ensures Valid()
      ensures botToken == JNull && adminId == None && configData == JNull
      ensures commandCount == 0 && screenshotCount == 0 && photoCount == 0
    {
      botToken := JNull;
      adminId := None;
      configData := JNull;
      commandCount := 0;
      screenshotCount := 0;
      photoCount := 0;
    }

    /**
     * `is_admin_user`: false while no administrator is configured, and true
     * for at most one user, whose id the stored text reads back as.
     */
    function IsAdminUser(userId: int): (r: bool)
      reads this
      ensures r <==> IsAdmin(adminId, userId)
      ensures adminId.None? ==> !r
      ensures r ==> forall other :: IsAdmin(adminId, other) ==> other == userId
    {
      if IsAdmin(adminId, userId) then
        assert forall other :: IsAdmin(adminId, other) ==> other == userId by {
          forall other | IsAdmin(adminId, other) ensures other == userId {
            AdminUnique(adminId, userId, other);
          }
        }
        true
      else false
    }

    /**
     * `initialize_bot`: load the configuration and keep it when both token
     * and id are truthy; the id is kept as `str(id)`. Otherwise nothing
     * changes.
     */
    method InitializeBot(file: ConfigFile, kdf: KeyParams -> Key, loads: seq<byte> -> Option<Json>)
      returns (ok: bool)
      requires Valid()
      modifies this`botToken, this`adminId, this`configData
      ensures Valid()
      ensures ok == Accepts(LoadConfiguration(file, kdf, loads))
      ensures ok ==>
        && botToken == LoadConfiguration(file, kdf, loads).botToken
        && adminId == Some(PyStr(LoadConfiguration(file, kdf, loads).adminId))
        && configData == LoadConfiguration(file, kdf, loads).config
      ensures !ok ==> botToken == old(botToken) && adminId == old(adminId) && configData == old(configData)
    {
      var loaded := LoadConfiguration(file, kdf, loads);
      if !Truthy(loaded.botToken) || !Truthy(loaded.adminId) {
        return false;
      }
      botToken := loaded.botToken;
      adminId := Some(PyStr(loaded.adminId));
      configData := loaded.config;
      ok := true;
    }

    /** `/start`: counted for every caller; the menu for the administrator only. */
    method HandleStartCommand(userId: int) returns (reply: StartReply)
      requires Valid()
      modifies this`commandCount
      ensures Valid()
      ensures commandCount == old(commandCount) + 1
      ensures reply == if IsAdmin(adminId, userId) then AdminMenu else Restricted(userId)
    {
      commandCount := commandCount + 1;
      if IsAdminUser(userId) {
        reply := AdminMenu;
      } else {
        reply := Restricted(userId);
      }
    }

    /** `/screenshot`: refused before anything is counted unless the caller is the administrator. */
    method HandleScreenshotCommand(userId: int, captured: bool) returns (reply: Reply)
      requires Valid()
      modifies this`commandCount, this`screenshotCount
      ensures Valid()
      ensures !IsAdmin(adminId, userId) ==>
        reply == Denied && commandCount == old(commandCount) && screenshotCount == old(screenshotCount)
      ensures IsAdmin(adminId, userId) ==>
        && commandCount == old(commandCount) + 1 && screenshotCount == old(screenshotCount) + 1
        && reply == (if captured then Sent else Failed)
    {
      if !IsAdminUser(userId) {
        return Denied;
      }
      commandCount := commandCount + 1;
      screenshotCount := screenshotCount + 1;
      reply := if captured then Sent else Failed;
    }

    /** `/camera`: refused before anything is counted unless the caller is the administrator. */
    method HandleCameraCommand(userId: int, outcome: CameraOutcome) returns (reply: Reply)
      requires Valid()
      modifies this`commandCount, this`photoCount
      ensures Valid()
      ensures !IsAdmin(adminId, userId) ==>
        reply == Denied && commandCount == old(commandCount) && photoCount == old(photoCount)
      ensures IsAdmin(adminId, userId) ==>
        && commandCount == old(commandCount) + 1 && photoCount == old(photoCount) + 1
        && reply == match outcome
                    case Photo => Sent
                    case CameraMissing => CameraUnavailable
                    case CaptureError => Failed
    {
      if !IsAdminUser(userId) {
        return Denied;
      }
      commandCount := commandCount + 1;
      photoCount := photoCount + 1;
      match outcome
      case Photo => reply := Sent;
      case CameraMissing => reply := CameraUnavailable;
      case CaptureError => reply := Failed;
    }

    /**
     * `/windows`: refused before anything is counted unless the caller is the
     * administrator. `enumeration` is what the window library reported, or
     * `None` when it raised. An empty list leaves the session as it was; a
     * non-empty one is replied with the listing and stored whole in the
     * session, replacing the previous list.
     */
    method HandleWindowsCommand(userId: int, enumeration: Option<seq<RawWindow>>, timestamp: string,
                                session: UserData)
      returns (reply: Reply)
      requires Valid()
      modifies this`commandCount, session
      ensures Valid()
      ensures !IsAdmin(adminId, userId) ==>
        reply == Denied && commandCount == old(commandCount) && session.windowsList == old(session.windowsList)
      ensures IsAdmin(adminId, userId) ==> commandCount == old(commandCount) + 1
      ensures IsAdmin(adminId, userId) && enumeration.None? ==>
        reply == Failed && session.windowsList == old(session.windowsList)
      ensures IsAdmin(adminId, userId) && enumeration.Some? && Collected(enumeration.value) == [] ==>
        reply == NoWindows && session.windowsList == old(session.windowsList)
      ensures IsAdmin(adminId, userId) && enumeration.Some? && Collected(enumeration.value) != [] ==>
        var windows := SortWindows(Collected(enumeration.value));
        && session.windowsList == Some(windows)
        && reply.Listing?
        && reply.text == MessageText(reply.lines)
        && reply.keyboard == Layout(Buttons(windows))
        && |reply.keyboard| <= MaxRows && Flatten(reply.keyboard) == Buttons(windows)
        && |reply.lines| == 3 + Min(|windows|, MaxListed) + (if |windows| > MaxListed then 1 else 0)
        && reply.lines[0] == HeaderLine(|windows|) && reply.lines[1] == timestamp && reply.lines[2] == ""
        && (forall i :: 0 <= i < Min(|windows|, MaxListed) ==> reply.lines[3 + i] == WindowLine(windows[i]))
        && (|windows| > MaxListed ==> reply.lines[|reply.lines| - 1] == OverflowLine(|windows| - MaxListed))
    {
      if !IsAdminUser(userId) {
        return Denied;
      }
      commandCount := commandCount + 1;
      if enumeration.None? {
        return Failed;
      }
      var windows := GetWindowList(enumeration.value);
      if windows == [] {
        return NoWindows;
      }
      var lines := MessageLines(windows, timestamp);
      var keyboard := BuildKeyboard(windows);
      reply := Listing(MessageText(lines), lines, keyboard);
      session.windowsList := Some(windows);
    }

    /**
     * A press on a window button. Refused unless the caller is the
     * administrator; otherwise the data is resolved against the session's
     * list. `activated` and `captured` are how activating the window and
     * taking the screenshot went.
     */
    method HandleWindowCallback(userId: int, data: string, session: UserData, activated: bool, captured: bool)
      returns (reply: CallbackReply)
      ensures !IsAdmin(adminId, userId) ==> reply == CallbackDenied
      ensures IsAdmin(adminId, userId) ==>
        match Resolve(session.windowsList, data)
        case Ignored => reply == Silent
        case NotFound => reply == WindowNotFound
        case Unparsable => reply == CallbackFailed
        case OutOfRange => reply == CallbackFailed
        case Found(w) =>
          reply == if !activated then ActivationFailed else if captured then Captured(w.process) else CallbackFailed
      ensures reply.Captured? ==> exists w :: w in session.windowsList.GetOr([]) && reply.process == w.process
    {
      if !IsAdminUser(userId) {
        return CallbackDenied;
      }
      var resolution := Resolve(session.windowsList, data);
      match resolution
      case Ignored => reply := Silent;
      case NotFound => reply := WindowNotFound;
      case Unparsable => reply := CallbackFailed;
      case OutOfRange => reply := CallbackFailed;
      case Found(w) =>
        if !activated {
          reply := ActivationFailed;
        } else if captured {
          reply := Captured(w.process);
        } else {
          reply := CallbackFailed;
        }
    }
  }
}
