/**
 * The session controls of the application window (`MouseApp`): the input
 * check performed before a session starts and the arithmetic of the
 * once-per-second countdown. Widgets and scheduling are not modelled.
 */
module Session {
  import opened Common

  const SecondsPerMinute: nat := 60

  const InputError: string := "Please enter a valid username and a numeric duration."

  /** The ASCII characters Python's str.strip() removes: space, tab to carriage return, and 0x1C to 0x1F. */
  predicate IsSpace(c: char) {
    c == ' ' || 9 <= c as int <= 13 || 28 <= c as int <= 31
  }

  /** The number of whitespace characters s starts with. */
  function LeadingSpaces(s: string): (n: nat)
    ensures n <= |s|
    ensures forall i :: 0 <= i < n ==> IsSpace(s[i])
    ensures n == |s| || !IsSpace(s[n])
  {
    if s != [] && IsSpace(s[0]) then 1 + LeadingSpaces(s[1..]) else 0
  }

  /** The number of whitespace characters s ends with. */
  function TrailingSpaces(s: string): (n: nat)
    ensures n <= |s|
    ensures forall i :: |s| - n <= i < |s| ==> IsSpace(s[i])
    ensures n == |s| || !IsSpace(s[|s| - n - 1])
  {
    if s != [] && IsSpace(s[|s| - 1]) then 1 + TrailingSpaces(s[..|s| - 1]) else 0
  }

  /** Python's str.strip(): drop the leading whitespace, then the trailing whitespace. */
  function Strip(s: string): string {
    var rest := s[LeadingSpaces(s)..];
    rest[..|rest| - TrailingSpaces(rest)]
  }

  /** Strip keeps a contiguous middle part of s and removes only whitespace around it. */
  lemma StripRemovesOnlySpaces(s: string)
    ensures var lo := LeadingSpaces(s);
      && lo + |Strip(s)| <= |s| && Strip(s) == s[lo..lo + |Strip(s)|]
      && (forall i :: 0 <= i < lo ==> IsSpace(s[i]))
      && (forall i :: lo + |Strip(s)| <= i < |s| ==> IsSpace(s[i]))
  {
    var lo := LeadingSpaces(s);
    var rest := s[lo..];
    var hi := |rest| - TrailingSpaces(rest);
    assert Strip(s) == rest[..hi] == s[lo..lo + hi];
    SpacesAfter(s, lo, hi);
  }

  /** Whitespace at the end of the suffix s[lo..] is whitespace at the end of s. */
  lemma SpacesAfter(s: string, lo: nat, hi: nat)
    requires lo + hi <= |s|
    requires forall i :: hi <= i < |s[lo..]| ==> IsSpace(s[lo..][i])
    ensures forall i :: lo + hi <= i < |s| ==> IsSpace(s[i])
  {
    forall i | lo + hi <= i < |s| ensures IsSpace(s[i]) {
      assert s[i] == s[lo..][i - lo];
    }
  }

  /** What Strip keeps neither starts nor ends with whitespace; all-whitespace strips to "". */
  lemma StripTrimsBothEnds(s: string)
    ensures Strip(s) == [] || (!IsSpace(Strip(s)[0]) && !IsSpace(Strip(s)[|Strip(s)| - 1]))
    ensures Strip(s) == [] <==> forall i :: 0 <= i < |s| ==> IsSpace(s[i])
  {
    var lo := LeadingSpaces(s);
    var rest := s[lo..];
    var hi := |rest| - TrailingSpaces(rest);
    assert Strip(s) == rest[..hi];
    assert lo < |s| ==> rest[0] == s[lo] && !IsSpace(rest[0]);
    assert hi > 0 ==> Strip(s)[0] == rest[0] && Strip(s)[hi - 1] == rest[hi - 1];
  }

  /** Python's str.isdigit() on ASCII: non-empty and all decimal digits. */
  predicate IsDigits(s: string) {
    |s| > 0 && forall i :: 0 <= i < |s| ==> '0' <= s[i] <= '9'
  }

  /** The value of a string of decimal digits (Python's int()). */
  function ParseDecimal(s: string): nat
    requires forall i :: 0 <= i < |s| ==> '0' <= s[i] <= '9'
  {
    if s == [] then 0
    else ParseDecimal(s[..|s| - 1]) * 10 + (s[|s| - 1] as int - '0' as int)
  }

  /** The settings a session starts with once its inputs are accepted. */
  datatype Config = Config(username: string, durationText: string, userLabel: string, remainingTime: nat)

  /**
   * The check in start_collection: the stripped username must be non-empty and
   * the stripped duration all digits; the countdown starts at minutes * 60 seconds.
   * Zero minutes is accepted.
   */
  function StartCollection(usernameEntry: string, durationEntry: string, userLabel: string): (r: Result<Config, string>)
    ensures r.Ok? <==> Strip(usernameEntry) != [] && IsDigits(Strip(durationEntry))
    ensures r.Err? ==> r.error == InputError
    ensures r.Ok? ==>
      && r.value.username == Strip(usernameEntry) && |r.value.username| > 0
      && r.value.durationText == Strip(durationEntry)
      && r.value.userLabel == userLabel
      && r.value.remainingTime == ParseDecimal(Strip(durationEntry)) * SecondsPerMinute
  {
    var username := Strip(usernameEntry);
    var durationStr := Strip(durationEntry);
    if username == [] || !IsDigits(durationStr) then Err(InputError)
    else Ok(Config(username, durationStr, userLabel, ParseDecimal(durationStr) * SecondsPerMinute))
  }

  /** What one countdown tick does: show mm:ss and count down, or declare the time up. */
  datatype Tick = Show(minutes: nat, seconds: nat, remainingTime: nat) | TimesUp

  function Countdown(remainingTime: int): (t: Tick)
    ensures t.Show? <==> remainingTime > 0
    ensures t.Show? ==>
      && t.minutes * SecondsPerMinute + t.seconds == remainingTime
      && t.seconds < SecondsPerMinute
      && t.remainingTime == remainingTime - 1
  {
    if remainingTime > 0 then
      Show(remainingTime / SecondsPerMinute, remainingTime % SecondsPerMinute, remainingTime - 1)
    else TimesUp
  }

  /** The number of ticks that show a time before the countdown declares the time up. */
  function TicksShown(remainingTime: nat): nat
    decreases remainingTime
  {
    match Countdown(remainingTime)
    case TimesUp => 0
    case Show(_, _, next) => 1 + TicksShown(next)
  }

  /** A session of m minutes shows a time on exactly m * 60 ticks before time is up; the first of them shows m:00. */
  lemma {:induction false} CountdownLength(minutes: nat)
    ensures TicksShown(minutes * SecondsPerMinute) == minutes * SecondsPerMinute
    ensures minutes > 0 ==> Countdown(minutes * SecondsPerMinute) == Show(minutes, 0, minutes * SecondsPerMinute - 1)
  {
    TicksShownCount(minutes * SecondsPerMinute);
  }

  lemma {:induction false} TicksShownCount(remainingTime: nat)
    ensures TicksShown(remainingTime) == remainingTime
    decreases remainingTime
  {
    if remainingTime > 0 {
      TicksShownCount(remainingTime - 1);
    }
  }

  /** A duration of "0" is accepted, and its first countdown tick already declares the time up. */
  lemma ZeroDurationAccepted(username: string, userLabel: string)
    requires username != [] && !IsSpace(username[0]) && !IsSpace(username[|username| - 1])
    ensures StartCollection(username, "0", userLabel) == Ok(Config(username, "0", userLabel, 0))
    ensures Countdown(0) == TimesUp
  {
    assert LeadingSpaces(username) == 0 && TrailingSpaces(username) == 0;
    assert Strip(username) == username;
    var zero := "0";
    assert LeadingSpaces(zero) == 0 && TrailingSpaces(zero) == 0;
    assert Strip(zero) == zero;
    assert zero[..0] == [];
    assert ParseDecimal(zero) == 0;
  }
}
