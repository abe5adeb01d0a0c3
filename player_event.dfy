/** The player event record of a football game page (maccabistats_player_event.py).
  * The event type and the goal sub-type are left abstract (type parameters);
  * the ordering, the wiki serialiser and the parser of events are not part of
  * the record and appear as parameters where they are used. */
module PlayerEvents {

  /** A Python `timedelta`, normalised as Python keeps it: 0 <= seconds < 86400. */
  datatype TimeDelta = TimeDelta(days: int, seconds: int, microseconds: int)

  predicate IsNormalised(d: TimeDelta)
  {
    0 <= d.seconds < 86400 && 0 <= d.microseconds < 1000000
  }

  type Duration = d: TimeDelta | IsNormalised(d) witness TimeDelta(0, 0, 0)

  /** The `number` argument as Python may see it: None, an int or a string. */
  datatype ShirtNumber = NoNumber | IntNumber(n: int) | TextNumber(s: string)

  /** Python truthiness of a shirt number: None, 0 and "" are false. */
  predicate Falsy(n: ShirtNumber)
  {
    n == NoNumber || n == IntNumber(0) || n == TextNumber("")
  }

  const NoNumberText: string := "אין-מספר"

  /** A player event; `maccabiPlayer` tells Maccabi's players from the
    * opponent's (the callers construct events with it). */
  datatype PlayerEvent<T, S> = PlayerEvent(
    name: string,
    number: ShirtNumber,
    minuteOccur: nat,
    eventType: T,
    subEventType: S,
    maccabiPlayer: bool)

  /** `PlayerEvent.__init__`: the minute is the whole minutes of the
    * timedelta's seconds part, and a falsy number becomes the sentinel. */
  function NewPlayerEvent<T, S>(name: string, number: ShirtNumber, timeOccur: Duration,
                                eventType: T, subEventType: S, maccabiPlayer: bool): (e: PlayerEvent<T, S>)
    ensures e.name == name && e.eventType == eventType && e.subEventType == subEventType
    ensures e.maccabiPlayer == maccabiPlayer
    ensures e.minuteOccur * 60 <= timeOccur.seconds < e.minuteOccur * 60 + 60
    ensures e.minuteOccur < 1440
    ensures !Falsy(e.number)
    ensures !Falsy(number) ==> e.number == number
    ensures Falsy(number) ==> e.number == TextNumber(NoNumberText)
  {
    PlayerEvent(name, if Falsy(number) then TextNumber(NoNumberText) else number,
                timeOccur.seconds / 60, eventType, subEventType, maccabiPlayer)
  }

  /** Whole days of the timedelta never reach the minute. */
  lemma MinuteIgnoresDays<T, S>(name: string, number: ShirtNumber, a: Duration, b: Duration,
                                eventType: T, subEventType: S, maccabiPlayer: bool)
    requires a.seconds == b.seconds
    ensures NewPlayerEvent(name, number, a, eventType, subEventType, maccabiPlayer)
         == NewPlayerEvent(name, number, b, eventType, subEventType, maccabiPlayer)
  {
  }
}
