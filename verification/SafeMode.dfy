/** The settings helpers of e2e/helpers.ts: withSafeModeOff around arbitrary bodies, setSafeMode and
    setConfirmDangerousExecution, over a backend whose calls may fail. */
module SafeMode {
  import opened Options

  datatype Value = Flag(on: bool) | Other(text: string)
  type Settings = map<string, Value>

  const SAFE_MODE := "safeMode"
  const CONFIRM := "confirmDangerousExecution"

  /** The persisted settings and the payload of the last settings-changed event. */
  datatype Host = Host(persisted: Settings, emitted: Option<Settings>)

  /** How a save call ends: done, refused, or done with the reply lost. */
  datatype Saving = Saved | Refused | ReplyLost

  /** How the calls of one helper end: reading, saving (if it happens) and emitting. */
  datatype Io = Io(fetches: bool, saving: Saving, emits: bool)

  const SMOOTH := Io(true, Saved, true)

  datatype End = Returned | Raised
  datatype Result = Result(host: Host, end: End)

  /** Safe mode counts as on unless it is literally false. */
  predicate IsOn(s: Settings) { !(SAFE_MODE in s && s[SAFE_MODE] == Flag(false)) }

  /** Save `next` if `needed`, then announce it. */
  function SaveAndEmit(host: Host, next: Settings, needed: bool, io: Io): Result {
    if needed && io.saving == Refused then Result(host, Raised)
    else
      var stored := if needed then host.(persisted := next) else host;
      if (needed && io.saving == ReplyLost) || !io.emits then Result(stored, Raised)
      else Result(stored.(emitted := Some(next)), Returned)
  }

  /** setSafeMode and setConfirmDangerousExecution: save only a changed value, announce always. */
  function SetFlag(host: Host, key: string, enabled: bool, io: Io): Result {
    if !io.fetches then Result(host, Raised)
    else
      var changed := !(key in host.persisted && host.persisted[key] == Flag(enabled));
      SaveAndEmit(host, host.persisted[key := Flag(enabled)], changed, io)
  }

  /** The part of withSafeModeOff before its try. */
  function Opens(host: Host, io: Io): Result {
    if !io.fetches then Result(host, Raised)
    else SaveAndEmit(host, host.persisted[SAFE_MODE := Flag(false)], IsOn(host.persisted), io)
  }

  /** Its finally block. */
  function Closes(host: Host, wasSafeMode: bool, io: Io): Result {
    if !io.fetches then Result(host, Raised)
    else SaveAndEmit(host, host.persisted[SAFE_MODE := Flag(wasSafeMode)], true, io)
  }

  /** What test code may do: call the helpers in any nesting, store any settings by other means, throw,
      and catch. */
  datatype Script =
    | Nothing
    | Throw
    | Store(settings: Settings)
    | SetSafeMode(enabled: bool, io: Io)
    | SetConfirm(enabled: bool, io: Io)
    | Then(first: Script, second: Script)
    | Catch(body: Script)
    | WithSafeModeOff(opening: Io, body: Script, closing: Io)

  function Exec(host: Host, script: Script): Result
    decreases script
  {
    match script
    case Nothing => Result(host, Returned)
    case Throw => Result(host, Raised)
    case Store(settings) => Result(host.(persisted := settings), Returned)
    case SetSafeMode(enabled, io) => SetFlag(host, SAFE_MODE, enabled, io)
    case SetConfirm(enabled, io) => SetFlag(host, CONFIRM, enabled, io)
    case Then(first, second) =>
      var r := Exec(host, first);
      if r.end == Raised then r else Exec(r.host, second)
    case Catch(body) => Exec(host, body).(end := Returned)
    case WithSafeModeOff(opening, body, closing) =>
      var begun := Opens(host, opening);
      if begun.end == Raised then begun
      else
        var ran := Exec(begun.host, body);
        var closed := Closes(ran.host, IsOn(host.persisted), closing);
        if closed.end == Raised then closed else Result(closed.host, ran.end)
  }

  // ---------- the backend and the window, with the helpers as the source writes them ----------

  class SettingsHost {
    var persisted: Settings
    var emitted: Option<Settings>

    ghost function State(): Host
      reads this
    {
      Host(persisted, emitted)
    }

    constructor (settings: Settings)
      ensures State() == Host(settings, None)
    {
      persisted, emitted := settings, None;
    }

    method Save(next: Settings, saving: Saving) returns (end: End)
      modifies this`persisted
      ensures persisted == if saving == Refused then old(persisted) else next
      ensures end == if saving == Saved then Returned else Raised
    {
      if saving == Refused {
        return Raised;
      }
      persisted := next;
      end := if saving == ReplyLost then Raised else Returned;
    }

    method Emit(next: Settings, emits: bool) returns (end: End)
      modifies this`emitted
      ensures emitted == if emits then Some(next) else old(emitted)
      ensures end == if emits then Returned else Raised
    {
      if !emits {
        return Raised;
      }
      emitted := Some(next);
      end := Returned;
    }

    method SetSetting(key: string, enabled: bool, io: Io) returns (end: End)
      modifies this
      ensures Result(State(), end) == SetFlag(old(State()), key, enabled, io)
    {
      if !io.fetches {
        return Raised;
      }
      var settings := persisted;
      var next := settings[key := Flag(enabled)];
      if !(key in settings && settings[key] == Flag(enabled)) {
        end := Save(next, io.saving);
        if end == Raised {
          return;
        }
      }
      end := Emit(next, io.emits);
    }

    /** The bracket around a script; whatever the body does, the finally block runs. */
    method RunScript(script: Script) returns (end: End)
      modifies this
      ensures Result(State(), end) == Exec(old(State()), script)
      decreases script, 0
    {
      match script
      case Nothing => end := Returned;
      case Throw => end := Raised;
      case Store(settings) =>
        persisted := settings;
        end := Returned;
      case SetSafeMode(enabled, io) => end := SetSetting(SAFE_MODE, enabled, io);
      case SetConfirm(enabled, io) => end := SetSetting(CONFIRM, enabled, io);
      case Then(first, second) =>
        end := RunScript(first);
        if end == Returned {
          end := RunScript(second);
        }
      case Catch(body) =>
        var _ := RunScript(body);
        end := Returned;
      case WithSafeModeOff(opening, body, closing) =>
        end := RunWithSafeModeOff(opening, body, closing);
    }

    method RunWithSafeModeOff(opening: Io, body: Script, closing: Io) returns (end: End)
      modifies this
      ensures Result(State(), end) == Exec(old(State()), WithSafeModeOff(opening, body, closing))
      decreases body, 1
    {
      if !opening.fetches {
        return Raised;
      }
      var settings := persisted;
      var wasSafeMode := IsOn(settings);
      var disabled := settings[SAFE_MODE := Flag(false)];
      if wasSafeMode {
        end := Save(disabled, opening.saving);
        if end == Raised {
          return;
        }
      }
      end := Emit(disabled, opening.emits);
      if end == Raised {
        return;
      }
      var ran := RunScript(body);
      if !closing.fetches {
        return Raised;
      }
      var restored := persisted[SAFE_MODE := Flag(wasSafeMode)];
      end := Save(restored, closing.saving);
      if end == Raised {
        return;
      }
      end := Emit(restored, closing.emits);
      if end == Raised {
        return;
      }
      end := ran;
    }
  }

  // ---------- properties ----------

  /** All helper calls of the script succeed. */
  predicate Smooth(script: Script) {
    match script
    case Nothing => true
    case Throw => true
    case Store(_) => true
    case SetSafeMode(_, io) => io == SMOOTH
    case SetConfirm(_, io) => io == SMOOTH
    case Then(first, second) => Smooth(first) && Smooth(second)
    case Catch(body) => Smooth(body)
    case WithSafeModeOff(opening, body, closing) => opening == SMOOTH && Smooth(body) && closing == SMOOTH
  }

  /** Nothing but the helpers changes settings. */
  predicate HelpersOnly(script: Script) {
    match script
    case Store(_) => false
    case Then(first, second) => HelpersOnly(first) && HelpersOnly(second)
    case Catch(body) => HelpersOnly(body)
    case WithSafeModeOff(_, body, _) => HelpersOnly(body)
    case _ => true
  }

  /** Outside of brackets nothing changes safe mode on purpose. */
  predicate BracketsOnly(script: Script) {
    match script
    case Store(_) => false
    case SetSafeMode(_, _) => false
    case Then(first, second) => BracketsOnly(first) && BracketsOnly(second)
    case Catch(body) => BracketsOnly(body)
    case _ => true
  }

  lemma StoringTheSameValue(s: Settings, key: string, on: bool)
    ensures key in s && s[key] == Flag(on) ==> s[key := Flag(on)] == s
  {
  }

  predicate InSync(host: Host) { host.emitted == Some(host.persisted) }

  /** The bracket, whatever its body does and however it ends: if its closing read and save take effect,
      safe mode is what it was, every other setting is what the body left, and the event (if it goes
      out) announces just that. */
  lemma BracketRestores(host: Host, opening: Io, body: Script, closing: Io)
    requires Opens(host, opening).end == Returned && closing.fetches && closing.saving != Refused
    ensures
      var ran := Exec(Opens(host, opening).host, body);
      var after := Exec(host, WithSafeModeOff(opening, body, closing));
      && IsOn(after.host.persisted) == IsOn(host.persisted)
      && after.host.persisted == ran.host.persisted[SAFE_MODE := Flag(IsOn(host.persisted))]
      && (closing == SMOOTH ==> InSync(after.host) && after.end == ran.end)
  {
  }

  /** When, exactly, the flag survives the bracket. A bracket that fails while opening leaves safe mode
      off if the save had taken effect: the finally block is not yet in force there. */
  lemma BracketRestoresExactlyWhen(host: Host, opening: Io, body: Script, closing: Io)
    ensures
      var begun := Opens(host, opening);
      var ran := Exec(begun.host, body);
      var after := Exec(host, WithSafeModeOff(opening, body, closing));
      IsOn(after.host.persisted) == IsOn(host.persisted) <==>
        if begun.end == Raised then
          !IsOn(host.persisted) || !opening.fetches || opening.saving == Refused
        else
          (closing.fetches && closing.saving != Refused) || IsOn(ran.host.persisted) == IsOn(host.persisted)
  {
  }

  /** It happens: with safe mode on by default, a bracket whose first announcement fails never reaches
      its body and leaves safe mode off, although all its other calls would succeed. */
  lemma FailedOpeningLeavesSafeModeOff(body: Script)
    ensures
      var host := Host(map[], None);
      var after := Exec(host, WithSafeModeOff(Io(true, Saved, false), body, SMOOTH));
      IsOn(host.persisted) && !IsOn(after.host.persisted) && after.end == Raised
  {
  }

  /** The outermost brackets open, and their closing read and save take effect. Nothing is asked of the
      calls inside their bodies, nor of the announcements at their end. */
  predicate OutermostTakeEffect(script: Script) {
    match script
    case Then(first, second) => OutermostTakeEffect(first) && OutermostTakeEffect(second)
    case Catch(body) => OutermostTakeEffect(body)
    case WithSafeModeOff(opening, _, closing) => opening == SMOOTH && closing.fetches && closing.saving != Refused
    case _ => true
  }

  /** Nesting: any composition of brackets whose outermost ones take effect restores safe mode, whatever
      their bodies store, set, throw, catch or bracket, and whichever calls fail in there. */
  lemma {:induction false} NestedBracketsRestore(host: Host, script: Script)
    requires OutermostTakeEffect(script) && BracketsOnly(script)
    ensures IsOn(Exec(host, script).host.persisted) == IsOn(host.persisted)
    decreases script
  {
    match script
    case Then(first, second) =>
      NestedBracketsRestore(host, first);
      if Exec(host, first).end == Returned {
        NestedBracketsRestore(Exec(host, first).host, second);
      }
    case Catch(body) => NestedBracketsRestore(host, body);
    case WithSafeModeOff(opening, body, closing) => BracketRestores(host, opening, body, closing);
    case _ =>
  }

  /** The window is never left behind: if all helper calls succeed and only helpers change settings, the
      last announced settings equal the persisted ones after every helper, at every depth. */
  lemma {:induction false} HelpersStayInSync(host: Host, script: Script)
    requires InSync(host) && Smooth(script) && HelpersOnly(script)
    ensures InSync(Exec(host, script).host)
    decreases script
  {
    match script
    case Then(first, second) =>
      HelpersStayInSync(host, first);
      if Exec(host, first).end == Returned {
        HelpersStayInSync(Exec(host, first).host, second);
      }
    case Catch(body) => HelpersStayInSync(host, body);
    case SetSafeMode(enabled, _) => SetterSynchronizes(host, SAFE_MODE, enabled);
    case SetConfirm(enabled, _) => SetterSynchronizes(host, CONFIRM, enabled);
    case WithSafeModeOff(opening, body, closing) =>
      OpeningSynchronizes(host);
      HelpersStayInSync(Opens(host, opening).host, body);
    case _ =>
  }

  /** The opening also synchronizes a window that was behind, and runs the body with safe mode off. */
  lemma OpeningSynchronizes(host: Host)
    ensures var begun := Opens(host, SMOOTH);
      && begun.end == Returned && InSync(begun.host) && !IsOn(begun.host.persisted)
      && begun.host.persisted == host.persisted[SAFE_MODE := Flag(false)]
  {
    StoringTheSameValue(host.persisted, SAFE_MODE, false);
  }

  /** What the opening leaves, whichever of its calls fail: safe mode is switched off, by a save only if it
      was on, and then announced. */
  lemma OpeningExactly(host: Host, io: Io)
    ensures
      var begun := Opens(host, io);
      var off := host.persisted["safeMode" := Flag(false)];
      && begun.host.persisted ==
           (if io.fetches && IsOn(host.persisted) && io.saving != Refused then off else host.persisted)
      && (begun.end == Returned <==> io.fetches && (IsOn(host.persisted) ==> io.saving == Saved) && io.emits)
      && begun.host.emitted == (if begun.end == Returned then Some(off) else host.emitted)
  {
  }

  /** How the bracket ends: it returns only if it opens, its body returns and all its closing calls succeed,
      and a failure of the closing hides how the body ended. */
  lemma BracketReturnsExactlyWhen(host: Host, opening: Io, body: Script, closing: Io)
    ensures
      var begun := Opens(host, opening);
      Exec(host, WithSafeModeOff(opening, body, closing)).end == Returned <==>
        begun.end == Returned && closing == SMOOTH && Exec(begun.host, body).end == Returned
  {
  }

  /** The laws of scripts: doing nothing is neutral, a throw skips what follows, a catch keeps the effect
      of its body and returns, and sequencing is associative. */
  lemma ScriptLaws(host: Host, a: Script, b: Script, c: Script)
    ensures Exec(host, Then(Nothing, a)) == Exec(host, a) == Exec(host, Then(a, Nothing))
    ensures Exec(host, Throw).host == host && Exec(host, Then(Throw, a)) == Exec(host, Throw) && Exec(host, Throw).end == Raised
    ensures Exec(host, Catch(Then(a, Throw))) == Result(Exec(host, a).host, Returned)
    ensures Exec(host, Then(Then(a, b), c)) == Exec(host, Then(a, Then(b, c)))
  {
    assert Exec(Exec(host, a).host, Throw).host == Exec(host, a).host;
  }

  /** What a setter leaves, whichever of its calls fail: just its own flag, stored unless the read failed or
      a save was needed and refused, and announced if it returned. */
  lemma SettersStoreTheirFlag(host: Host, enabled: bool, io: Io, confirm: bool)
    ensures
      var key := if confirm then "confirmDangerousExecution" else "safeMode";
      var after := Exec(host, if confirm then SetConfirm(enabled, io) else SetSafeMode(enabled, io));
      var changed := key !in host.persisted || host.persisted[key] != Flag(enabled);
      && after.host.persisted ==
           (if io.fetches && !(changed && io.saving == Refused) then host.persisted[key := Flag(enabled)] else host.persisted)
      && (after.end == Returned <==> io.fetches && (changed ==> io.saving == Saved) && io.emits)
      && after.host.emitted == (if after.end == Returned then Some(after.host.persisted) else host.emitted)
  {
    StoringTheSameValue(host.persisted, if confirm then CONFIRM else SAFE_MODE, enabled);
  }

  /** Setting safe mode on or off is what it is then, until something else changes it. */
  lemma SafeModeIsSet(host: Host, enabled: bool)
    ensures IsOn(Exec(host, SetSafeMode(enabled, SMOOTH)).host.persisted) == enabled
  {
  }

  /** So does each of the two setters, from any state: it stores and announces just its own flag. */
  lemma SetterSynchronizes(host: Host, key: string, enabled: bool)
    ensures var after := SetFlag(host, key, enabled, SMOOTH);
      && after.end == Returned && InSync(after.host)
      && after.host.persisted == host.persisted[key := Flag(enabled)]
  {
    StoringTheSameValue(host.persisted, key, enabled);
  }
}
