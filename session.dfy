/** The state the password window keeps: its settings, the displayed
    password, the strength bar, the recent-passwords list and the expiry
    timer (modelled by whether it is running). */
module Session {
  import opened Wrappers
  import opened Charset
  import opened Strength
  import opened Generator
  import opened History
  import opened Controls

  /** The invariant of the window's state: the timer runs exactly while a
      password is displayed; the displayed password is the newest history
      entry; every entry has a slider length; the bar shows the score of the
      newest entry (a clear leaves it as it was). */
  ghost predicate Consistent(length: int, output: string, strength: nat,
                             history: seq<string>, armed: bool)
  {
    && InRange(length)
    && |history| <= HISTORY_LIMIT
    && (forall i :: 0 <= i < |history| ==> InRange(|history[i]|))
    && (armed <==> output != "")
    && (output != "" ==> history != [] && output == history[0])
    && strength == (if history == [] then 0 else Score(history[0]))
  }

  /** A successful generation keeps the invariant: showing, scoring and
      recording a password of the slider's length, with the timer started. */
  lemma GenerationConsistent(length: int, output: string, strength: nat,
                             history: seq<string>, armed: bool, pwd: string)
    requires Consistent(length, output, strength, history, armed)
    requires |pwd| == length
    ensures Consistent(length, pwd, Score(pwd), Recorded(history, pwd), true)
  {
    RecordedInRange(history, pwd);
  }

  /** Clearing keeps the invariant. */
  lemma ClearConsistent(length: int, output: string, strength: nat,
                        history: seq<string>, armed: bool)
    requires Consistent(length, output, strength, history, armed)
    ensures Consistent(length, "", strength, history, false)
  {
  }

  class PasswordGenerator {
    /** Slider value and checked class boxes. */
    var length: int
    var enabled: set<CharClass>
    /** The password field, the strength bar and the history list. */
    var output: string
    var strength: nat
    var history: seq<string>
    /** Whether the 30-second expiry timer is running. */
    var armed: bool

    ghost predicate Valid()
      reads this
    {
      Consistent(length, output, strength, history, armed)
    }

    /** The window as it opens: slider at 12, lower case and digits checked,
        nothing generated, timer stopped. */
    constructor ()
      ensures Valid()
      ensures length == DEFAULT_LENGTH && enabled == DEFAULT_CLASSES
      ensures output == "" && strength == 0 && history == [] && !armed
    {
      length := DEFAULT_LENGTH;
      enabled := DEFAULT_CLASSES;
      output := "";
      strength := 0;
      history := [];
      armed := false;
    }

    /** The user moves the slider; the slider keeps the value in range. */
    method SetLength(v: int)
      requires Valid()
      modifies this`length
      ensures Valid()
      ensures length == Clamp(v)
    {
      length := Clamp(v);
    }

    /** The user ticks or unticks the box of class `k`. */
    method SetChecked(k: CharClass, checked: bool)
      requires Valid()
      modifies this`enabled
      ensures Valid()
      ensures enabled == if checked then old(enabled) + {k} else old(enabled) - {k}
    {
      if checked {
        enabled := enabled + {k};
      } else {
        enabled := enabled - {k};
      }
    }

    /** Selecting a profile sets the slider and the boxes to its preset; the
        custom entry changes nothing. */
    method ApplyProfile(p: Profile)
      requires Valid()
      modifies this`length, this`enabled
      ensures Valid()
      ensures PresetOf(p).None? ==> length == old(length) && enabled == old(enabled)
      ensures PresetOf(p).Some? ==>
        length == PresetOf(p).value.length && enabled == PresetOf(p).value.classes
    {
      if p == Simple {
        length := 8;
        enabled := {Lower, Digit};
      } else if p == Secure {
        length := 14;
        enabled := {Lower, Upper, Digit, Symbol};
      } else if p == UltraSecure {
        length := 24;
        enabled := {Lower, Upper, Digit, Symbol};
      }
    }

    /** With no class enabled nothing changes (the warning dialog is
        presentation). Otherwise a fresh password of the slider's length, drawn
        from the pool, is displayed, scored, recorded, and the timer is
        (re)started. */
    method GeneratePassword()
      requires Valid()
      modifies this`output, this`strength, this`history, this`armed
      ensures Valid()
      ensures old(enabled) == {} ==>
        output == old(output) && strength == old(strength)
        && history == old(history) && armed == old(armed)
      ensures old(enabled) != {} ==>
        && |output| == length
        && (forall i :: 0 <= i < |output| ==> output[i] in Pool(enabled))
        && strength == Score(output)
        && history == Recorded(old(history), output)
        && armed
    {
      var r := Generate(length, enabled);
      if r.Failure? {
        return;
      }
      var pwd := r.value;
      GenerationConsistent(length, output, strength, history, armed, pwd);
      output := pwd;
      UpdateStrength(pwd);
      AddToHistory(pwd);
      armed := true;
    }

    /** The strength bar shows the score of `pwd`. A step of
        `GeneratePassword`, not a window operation of its own: alone it does
        not keep `Valid()`. */
    method UpdateStrength(pwd: string)
      modifies this`strength
      ensures strength == Score(pwd)
    {
      strength := Score(pwd);
    }

    /** Insert at the front, then cut the list to its first five entries. A
        step of `GeneratePassword`, not a window operation of its own: alone
        it does not keep `Valid()`. */
    method AddToHistory(pwd: string)
      modifies this`history
      ensures history == Recorded(old(history), pwd)
    {
      history := [pwd] + history;
      history := history[..Min(|history|, HISTORY_LIMIT)];
    }

    /** What the copy button puts on the clipboard: the displayed text, which
        is empty once the password has expired or been cleared. */
    method CopyPassword() returns (copied: string)
      ensures copied == output
    {
      copied := output;
    }

    /** Empty the field and stop the timer; settings, bar and history stay. A
        session that shows nothing is left exactly as it was, so clearing
        twice is clearing once. */
    method ClearPassword()
      requires Valid()
      modifies this`output, this`armed
      ensures Valid()
      ensures output == "" && !armed
      ensures !old(armed) ==> unchanged(this)
    {
      output := "";
      armed := false;
    }

    /** The timer fires: it is connected to `ClearPassword`. */
    method Expire()
      requires Valid() && armed
      modifies this`output, this`armed
      ensures Valid()
      ensures output == "" && !armed
    {
      ClearPassword();
    }
  }

  /** Recording a password of a slider length keeps every entry of a slider
      length. */
  lemma RecordedInRange(history: seq<string>, pwd: string)
    requires forall i :: 0 <= i < |history| ==> InRange(|history[i]|)
    requires InRange(|pwd|)
    ensures forall i :: 0 <= i < |Recorded(history, pwd)| ==> InRange(|Recorded(history, pwd)[i]|)
  {
    var r := Recorded(history, pwd);
    forall i | 0 <= i < |r| ensures InRange(|r[i]|) {
      if i > 0 {
        assert r[i] == history[i - 1];
      }
    }
  }

  /** A digits-and-lower-case password of the "simple" profile never reaches
      more than three points, however lucky the draw. */
  lemma SimpleProfileScoreCeiling(pwd: string)
    requires |pwd| == PresetOf(Simple).value.length
    requires forall i :: 0 <= i < |pwd| ==> pwd[i] in Pool(PresetOf(Simple).value.classes)
    ensures Score(pwd) <= 3
  {
    ScoreWithinPool(pwd, {Lower, Digit});
  }

  /** Seven generations with the default settings, then a clear: the list is
      the last five passwords, newest first, and survives the clear. */
  method SevenGenerationsThenClear()
  {
    var g := new PasswordGenerator();
    var shown: seq<string> := [];
    for n := 0 to 7
      invariant g.Valid() && g.enabled == DEFAULT_CLASSES
      invariant |shown| == n && g.history == RecordAll([], shown)
    {
      g.GeneratePassword();
      assert (shown + [g.output])[..|shown|] == shown;
      shown := shown + [g.output];
    }
    LastFive([], shown);
    g.ClearPassword();
    assert g.output == "" && !g.armed;
    assert g.history == [shown[6], shown[5], shown[4], shown[3], shown[2]];
    var copied := g.CopyPassword();
    assert copied == "";
  }
}
