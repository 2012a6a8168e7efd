/** What new settings do to a recording that is under way. */
module RecordingSettings {
  import opened SteadyTimers
  import opened RecordingClock

  /** A file has just been begun that is to last the set duration, with an empty table of the size that asks for. */
  ghost predicate Begun(s: State) {
    && s.recording && s.keyframes == 0 && s.capacity == TableSize(s.duration, s.interval)
    && s.stopTimer.expiry == s.now + s.duration && |s.stopTimer.waits| == 1
  }

  /** The next keyframe is due after the set interval, or never when there is none. */
  ghost predicate KeyframeSet(s: State) {
    if s.interval == 0 then s.keyframeTimer.waits == []
    else s.keyframeTimer.expiry == s.now + s.interval && |s.keyframeTimer.waits| == 1
  }

  ghost predicate Halted(s: State) {
    !s.recording && s.stopTimer.waits == [] && s.keyframeTimer.waits == []
  }

  /** A file that lasts at least as long as is now asked for goes on as it is, and gets a new snapshot and keyframe time
      exactly when the interval or what is captured changed; one that would end sooner is replaced by a new file, and the
      recording halts when that cannot be created.  A file that should have ended already is left alone when no duration
      is set. */
  lemma SettingsTakeEffect(s: State, duration: nat, interval: nat, captureChanged: bool, created: bool)
    requires s.recording
    ensures var t, left := SetSettings(s, duration, interval, captureChanged, created), s.stopTimer.expiry - s.now;
            && t.duration == duration && t.interval == interval && t.now == s.now
            && (left >= duration ==>
                 && t.recording && t.keyframes == s.keyframes && t.capacity == s.capacity && t.stopTimer == s.stopTimer
                 && if interval != s.interval || captureChanged then KeyframeSet(t) else t.keyframeTimer == s.keyframeTimer)
            && (left < duration && duration > 0 ==> if created then Begun(t) && KeyframeSet(t) else Halted(t))
            && (left < duration == 0 ==> t == s.(duration := duration, interval := interval))
  {
  }

  /** Settings alone neither start nor stop a recording that is not under way. */
  lemma SettingsDoNotStart(s: State, duration: nat, interval: nat, captureChanged: bool, created: bool)
    requires !s.recording
    ensures SetSettings(s, duration, interval, captureChanged, created) == s.(duration := duration, interval := interval)
  {
  }
}
