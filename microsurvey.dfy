/** The attribution microsurvey: a dialog asking how the visitor found the
    site, shown from the second browsing session on, snoozed for 90 days
    after an answer and 7 days after a dismissal, and held back while the
    install banner would be showing. Its memory is the browser's local
    storage. */
module Microsurvey {
  import opened Options
  import opened Strings
  import opened Calendar

  const SESSION_TIMEOUT_MS: int := 30 * MS_PER_MINUTE
  const SEVEN_DAYS_MS: int := 7 * MS_PER_DAY
  const THREE_MONTHS_MS: int := 90 * MS_PER_DAY

  const SESSION_COUNT: string := "tc_session_count"
  const LAST_SESSION_TS: string := "tc_last_session_ts"
  const RESPONDED: string := "tc_microsurvey_responded"
  const DISMISSED: string := "tc_microsurvey_dismissed"
  const PAGE_VIEW_COUNT: string := "tc_page_view_count"
  const INSTALL_BANNER_DISMISSED: string := "tc_install_banner_dismissed"

  /** How the survey's JSON reading treats a stored text: `JSON.parse`,
      then `const { timestamp } = …`, then the arithmetic `now - timestamp`.
      `Throws`: the text is not JSON, or it is the JSON `null`, which cannot
      be destructured; the `catch` branch runs. `Stamp(Some(t))`: the
      timestamp converts to the number `t` by JavaScript's ToNumber (a
      number is itself, `null` is 0, a boolean 0 or 1, a numeric string
      its value). `Stamp(None)`: the timestamp converts to `NaN`, as a
      missing field does and as every JSON value that is not an object
      (a number, `true`, an array, a string) does, since it has no
      `timestamp` property. */
  datatype JsonRead = Throws | Stamp(ms: Option<int>)

  /** A stored text, by the two ways the survey reads it:
      `parseInt(text, 10)` (`None` is `NaN`) and the JSON reading above.
      An empty text reads like a missing item and is modelled as one. */
  datatype Stored = Stored(asInt: Option<int>, asJson: JsonRead)

  type Storage = map<string, Stored>

  /** `n.toString()`: its digits read back as `n`, and `JSON.parse` gives a
      number, whose `timestamp` is undefined. */
  function NumberText(n: int): Stored {
    Stored(Some(n), Stamp(None))
  }

  /** `(NaN).toString()`, the text "NaN": `parseInt` gives `NaN` and
      `JSON.parse` throws. */
  const NAN_TEXT: Stored := Stored(None, Throws)

  /** `JSON.stringify({ timestamp: t })`: `parseInt` stops at the brace,
      and the JSON reading gives back `t`. */
  function RecordText(t: int): Stored {
    Stored(None, Stamp(Some(t)))
  }

  /** `parseInt(localStorage.getItem(key) || '0', 10)`; `None` is `NaN`. */
  function ReadInt(storage: Storage, key: string): (r: Option<int>)
    ensures key !in storage ==> r == Some(0)
    ensures key in storage ==> r == storage[key].asInt
  {
    if key !in storage then Some(0) else storage[key].asInt
  }

  /** The session bookkeeping at the start of a visit: a visit more than
      30 minutes after the last one opens a new session, and every visit
      records its time. A `NaN` last-visit time never opens a session; a
      `NaN` count stays `NaN`. */
  function TrackSession(storage: Storage, now: int): (r: Storage)
    ensures LAST_SESSION_TS in r && r[LAST_SESSION_TS] == NumberText(now)
    ensures forall k :: k != SESSION_COUNT && k != LAST_SESSION_TS ==>
      (k in r <==> k in storage) && (k in r ==> r[k] == storage[k])
  {
    var last := ReadInt(storage, LAST_SESSION_TS);
    var counted :=
      if last.Some? && now - last.value > SESSION_TIMEOUT_MS then
        var count := ReadInt(storage, SESSION_COUNT);
        storage[SESSION_COUNT := if count.Some? then NumberText(count.value + 1) else NAN_TEXT]
      else storage;
    counted[LAST_SESSION_TS := NumberText(now)]
  }

  /** An earlier answer or dismissal stored under `key` still holds at
      `now`: `now - timestamp < window` with a timestamp that is a number.
      No item, text that throws, and a `NaN` timestamp do not hold, since a
      comparison with `NaN` is false. */
  predicate Snoozed(storage: Storage, key: string, now: int, window: int) {
    key in storage && storage[key].asJson.Stamp? && storage[key].asJson.ms.Some?
    && now - storage[key].asJson.ms.value < window
  }

  /** The install banner's own rule, as the survey reproduces it: it would
      show on the coming page view when that is at least the second and
      the app is not installed, unless it was dismissed less than 7 days
      ago. Text that throws counts as never dismissed; a `NaN` timestamp
      fails `>=` and keeps the banner hidden. */
  predicate InstallBannerWouldShow(storage: Storage, now: int, standalone: bool) {
    var pageViews := ReadInt(storage, PAGE_VIEW_COUNT);
    pageViews.Some? && pageViews.value + 1 >= 2 && !standalone &&
    (INSTALL_BANNER_DISMISSED !in storage
     || storage[INSTALL_BANNER_DISMISSED].asJson.Throws?
     || (storage[INSTALL_BANNER_DISMISSED].asJson.Stamp? && storage[INSTALL_BANNER_DISMISSED].asJson.ms.Some?
         && now - storage[INSTALL_BANNER_DISMISSED].asJson.ms.value >= SEVEN_DAYS_MS))
  }

  /** Whether the survey is scheduled, judged on the storage after the
      session bookkeeping. A `NaN` session count does not stop it. */
  predicate ShouldShow(storage: Storage, now: int, standalone: bool) {
    var sessions := ReadInt(storage, SESSION_COUNT);
    && !(sessions.Some? && sessions.value < 2)
    && !Snoozed(storage, RESPONDED, now, THREE_MONTHS_MS)
    && !Snoozed(storage, DISMISSED, now, SEVEN_DAYS_MS)
    && !InstallBannerWouldShow(storage, now, standalone)
  }

  /** The dialog and its storage. */
  class Survey {
    var storage: Storage
    var isOpen: bool
    /** The two-second timer that opens the dialog is running. */
    var scheduled: bool
    var showOtherInput: bool
    var otherText: string
    var hasResponded: bool

    constructor (storage: Storage)
      ensures this.storage == storage
      ensures !isOpen && !scheduled && !showOtherInput && otherText == "" && !hasResponded
    {
      this.storage := storage;
      isOpen := false;
      scheduled := false;
      showOtherInput := false;
      otherText := "";
      hasResponded := false;
    }

    /** The mount effect: session bookkeeping, then the four gates; when
        all pass the opening timer starts. */
    method Mount(now: int, standalone: bool)
      modifies this
      ensures storage == TrackSession(old(storage), now)
      ensures scheduled == (old(scheduled) || ShouldShow(storage, now, standalone))
      ensures isOpen == old(isOpen) && hasResponded == old(hasResponded)
      ensures showOtherInput == old(showOtherInput) && otherText == old(otherText)
    {
      var lastSessionTs := ReadInt(storage, LAST_SESSION_TS);
      if lastSessionTs.Some? && now - lastSessionTs.value > SESSION_TIMEOUT_MS {
        var sessionCount := ReadInt(storage, SESSION_COUNT);
        storage := storage[SESSION_COUNT := if sessionCount.Some? then NumberText(sessionCount.value + 1) else NAN_TEXT];
      }
      storage := storage[LAST_SESSION_TS := NumberText(now)];
      var sessionCount := ReadInt(storage, SESSION_COUNT);
      if sessionCount.Some? && sessionCount.value < 2 {
        return;
      }
      if Snoozed(storage, RESPONDED, now, THREE_MONTHS_MS) {
        return;
      }
      if Snoozed(storage, DISMISSED, now, SEVEN_DAYS_MS) {
        return;
      }
      if InstallBannerWouldShow(storage, now, standalone) {
        return;
      }
      scheduled := true;
    }

    /** The timer fires: the dialog opens. */
    method TimerFires()
      modifies this
      requires scheduled
      ensures isOpen && !scheduled
      ensures storage == old(storage) && hasResponded == old(hasResponded)
      ensures showOtherInput == old(showOtherInput) && otherText == old(otherText)
    {
      scheduled := false;
      isOpen := true;
    }

    /** One of the listed answers is picked. */
    method Answer(now: int)
      modifies this
      ensures hasResponded && !isOpen
      ensures storage == old(storage)[RESPONDED := RecordText(now)]
      ensures scheduled == old(scheduled)
      ensures showOtherInput == old(showOtherInput) && otherText == old(otherText)
    {
      hasResponded := true;
      storage := storage[RESPONDED := RecordText(now)];
      isOpen := false;
    }

    /** "Other" is picked: the free-text input appears. */
    method ClickOther()
      modifies this
      ensures showOtherInput
      ensures storage == old(storage) && isOpen == old(isOpen) && scheduled == old(scheduled)
      ensures hasResponded == old(hasResponded) && otherText == old(otherText)
    {
      showOtherInput := true;
    }

    /** The free text is edited. */
    method EditOther(text: string)
      modifies this
      ensures otherText == text
      ensures storage == old(storage) && isOpen == old(isOpen) && scheduled == old(scheduled)
      ensures hasResponded == old(hasResponded) && showOtherInput == old(showOtherInput)
    {
      otherText := text;
    }

    /** The free text is sent; text that is only whitespace is ignored.
        The source tests `otherText.trim()`, which is empty exactly when the
        text is blank (`Strings.TrimEmpty`). */
    method SubmitOther(now: int)
      modifies this
      ensures !IsBlank(old(otherText)) ==>
        hasResponded && !isOpen && storage == old(storage)[RESPONDED := RecordText(now)]
      ensures IsBlank(old(otherText)) ==>
        hasResponded == old(hasResponded) && isOpen == old(isOpen) && storage == old(storage)
      ensures scheduled == old(scheduled)
      ensures showOtherInput == old(showOtherInput) && otherText == old(otherText)
    {
      if !IsBlank(otherText) {
        hasResponded := true;
        storage := storage[RESPONDED := RecordText(now)];
        isOpen := false;
      }
    }

    /** "Skip": the dismissal is recorded and the dialog closes. */
    method Dismiss(now: int)
      modifies this
      ensures !isOpen
      ensures storage == old(storage)[DISMISSED := RecordText(now)]
      ensures scheduled == old(scheduled) && hasResponded == old(hasResponded)
      ensures showOtherInput == old(showOtherInput) && otherText == old(otherText)
    {
      storage := storage[DISMISSED := RecordText(now)];
      isOpen := false;
    }

    /** The dialog asks to close (escape, outside click): a close without
        an answer counts as a dismissal. */
    method OpenChange(open: bool, now: int)
      modifies this
      ensures !open && !old(hasResponded) ==>
        !isOpen && storage == old(storage)[DISMISSED := RecordText(now)]
      ensures open || old(hasResponded) ==> isOpen == old(isOpen) && storage == old(storage)
      ensures scheduled == old(scheduled) && hasResponded == old(hasResponded)
      ensures showOtherInput == old(showOtherInput) && otherText == old(otherText)
    {
      if !open && !hasResponded {
        Dismiss(now);
      }
    }
  }

  /** The session count moves by one exactly when a readable last-visit
      time lies more than 30 minutes back; the last-visit time becomes now. */
  lemma SessionCounting(storage: Storage, now: int)
    requires ReadInt(storage, SESSION_COUNT).Some?
    ensures var last := ReadInt(storage, LAST_SESSION_TS);
      ReadInt(TrackSession(storage, now), SESSION_COUNT) ==
        if last.Some? && now - last.value > SESSION_TIMEOUT_MS
        then Some(ReadInt(storage, SESSION_COUNT).value + 1)
        else ReadInt(storage, SESSION_COUNT)
    ensures ReadInt(TrackSession(storage, now), LAST_SESSION_TS) == Some(now)
  {
  }

  /** Two visits at most 30 minutes apart are one session. */
  lemma {:induction false} SameSession(storage: Storage, t1: int, t2: int)
    requires t1 <= t2 <= t1 + SESSION_TIMEOUT_MS
    ensures ReadInt(TrackSession(TrackSession(storage, t1), t2), SESSION_COUNT)
         == ReadInt(TrackSession(storage, t1), SESSION_COUNT)
  {
    var s1 := TrackSession(storage, t1);
    assert ReadInt(s1, LAST_SESSION_TS) == Some(t1);
    assert TrackSession(s1, t2) == s1[LAST_SESSION_TS := NumberText(t2)];
  }

  /** A first visit never shows the survey. */
  lemma FirstVisitNeverShows(now: int, standalone: bool)
    requires now > SESSION_TIMEOUT_MS
    ensures !ShouldShow(TrackSession(map[], now), now, standalone)
  {
    var s := TrackSession(map[], now);
    assert s[SESSION_COUNT] == NumberText(1);
  }

  /** From fresh storage, a second visit in a new session shows the survey:
      no page view has been counted, so the install banner would not show. */
  lemma SecondSessionShows(t1: int, t2: int, standalone: bool)
    requires t1 > SESSION_TIMEOUT_MS && t2 - t1 > SESSION_TIMEOUT_MS
    ensures ShouldShow(TrackSession(TrackSession(map[], t1), t2), t2, standalone)
  {
    var s1 := TrackSession(map[], t1);
    assert s1[SESSION_COUNT] == NumberText(1);
    var s2 := TrackSession(s1, t2);
    assert s2[SESSION_COUNT] == NumberText(2);
    assert PAGE_VIEW_COUNT !in s2;
    assert RESPONDED !in s2 && DISMISSED !in s2;
  }

  /** An answer at `t` keeps the survey away on every visit for 90 days. */
  lemma AnswerSnoozes(storage: Storage, t: int, now: int, standalone: bool)
    requires t <= now < t + THREE_MONTHS_MS
    ensures !ShouldShow(TrackSession(storage[RESPONDED := RecordText(t)], now), now, standalone)
  {
    var s := TrackSession(storage[RESPONDED := RecordText(t)], now);
    assert s[RESPONDED] == RecordText(t);
  }

  /** A dismissal at `t` keeps the survey away on every visit for 7 days. */
  lemma DismissSnoozes(storage: Storage, t: int, now: int, standalone: bool)
    requires t <= now < t + SEVEN_DAYS_MS
    ensures !ShouldShow(TrackSession(storage[DISMISSED := RecordText(t)], now), now, standalone)
  {
    var s := TrackSession(storage[DISMISSED := RecordText(t)], now);
    assert s[DISMISSED] == RecordText(t);
  }

  /** The install banner takes priority: with a page view counted, the
      app not installed and the banner never dismissed, the survey stays
      away whatever else holds. */
  lemma BannerTakesPriority(storage: Storage, now: int)
    requires PAGE_VIEW_COUNT in storage && storage[PAGE_VIEW_COUNT] == NumberText(1)
    requires INSTALL_BANNER_DISMISSED !in storage
    ensures !ShouldShow(TrackSession(storage, now), now, false)
  {
    var s := TrackSession(storage, now);
    assert s[PAGE_VIEW_COUNT] == NumberText(1);
    assert INSTALL_BANNER_DISMISSED !in s;
  }

  /** A record that throws or whose timestamp is `NaN` does not snooze the
      survey, and a snooze ends when its window is over. */
  lemma UnreadableOrOldRecordsIgnored(storage: Storage, key: string, now: int, window: int)
    requires key in storage
    requires storage[key].asJson.Throws? || storage[key].asJson == Stamp(None)
      || (storage[key].asJson.Stamp? && storage[key].asJson.ms.Some?
          && now - storage[key].asJson.ms.value >= window)
    ensures !Snoozed(storage, key, now, window)
  {
  }

  /** A record the survey wrote itself snoozes exactly while its window
      runs, and a number written by the session bookkeeping never does. */
  lemma WrittenRecordsSnooze(storage: Storage, key: string, t: int, n: int, now: int, window: int)
    ensures Snoozed(storage[key := RecordText(t)], key, now, window) <==> now - t < window
    ensures !Snoozed(storage[key := NumberText(n)], key, now, window)
  {
  }

  /** The banner's dismissal record, read as the survey reads it, with a
      page view counted and the app not installed: text that throws shows
      the banner, a `NaN` timestamp hides it, and a numeric timestamp (a
      JSON `null` among them, as 0) shows it once 7 days have passed. */
  lemma BannerDismissalReadings(storage: Storage, now: int)
    requires ReadInt(storage, PAGE_VIEW_COUNT).Some? && ReadInt(storage, PAGE_VIEW_COUNT).value >= 1
    requires INSTALL_BANNER_DISMISSED in storage
    ensures storage[INSTALL_BANNER_DISMISSED].asJson.Throws? ==> InstallBannerWouldShow(storage, now, false)
    ensures storage[INSTALL_BANNER_DISMISSED].asJson == Stamp(None) ==> !InstallBannerWouldShow(storage, now, false)
    ensures forall t :: storage[INSTALL_BANNER_DISMISSED].asJson == Stamp(Some(t)) ==>
      (InstallBannerWouldShow(storage, now, false) <==> now - t >= SEVEN_DAYS_MS)
  {
  }

  /** A session count that is not a number stays `NaN` through the
      bookkeeping, and then the two-session gate lets the survey through:
      `NaN < 2` is false. */
  lemma NaNCountPassesGate(storage: Storage, now: int, standalone: bool)
    requires ReadInt(storage, SESSION_COUNT).None?
    ensures ReadInt(TrackSession(storage, now), SESSION_COUNT).None?
    ensures var s := TrackSession(storage, now);
      ShouldShow(s, now, standalone) <==>
        !Snoozed(s, RESPONDED, now, THREE_MONTHS_MS) && !Snoozed(s, DISMISSED, now, SEVEN_DAYS_MS)
        && !InstallBannerWouldShow(s, now, standalone)
  {
  }
}
