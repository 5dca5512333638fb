/**
 * The Swiss railway clock widget: the time it keeps (hours on a 12-hour
 * dial), the angles at which it draws its three hands, and the sixty
 * markers around its face.
 */
module SwissClock {

  /** The rotation, in degrees clockwise from 12 o'clock, of each hand. */
  datatype Hands = Hands(hourAngle: real, minuteAngle: nat, secondAngle: nat)

  /** One marker of the face: its rotation, and whether it is a thick hour marker. */
  datatype Marker = Marker(isHour: bool, angle: nat)

  /**
   * `renderClock`'s angles: 30 degrees per hour plus half a degree per minute
   * for the hour hand, 6 degrees per minute and per second for the others.
   */
  function HandAngles(hours: nat, minutes: nat, seconds: nat): (hands: Hands)
    requires hours < 12 && minutes < 60 && seconds < 60
    ensures 0.0 <= hands.hourAngle < 360.0
    ensures hands.minuteAngle < 360 && hands.minuteAngle % 6 == 0
    ensures hands.secondAngle < 360 && hands.secondAngle % 6 == 0
    ensures minutes == 0 ==> hands.hourAngle == (30 * hours) as real
  {
    Hands((hours * 30) as real + (minutes as real) * 0.5, minutes * 6, seconds * 6)
  }

  /**
   * The hour hand moves forward with the time: a later minute of the same
   * 12-hour turn puts it further round the dial, half a degree per minute.
   */
  lemma HourHandAdvances(h1: nat, m1: nat, h2: nat, m2: nat)
    requires h1 < 12 && m1 < 60 && h2 < 12 && m2 < 60
    requires h1 * 60 + m1 < h2 * 60 + m2
    ensures HandAngles(h1, m1, 0).hourAngle < HandAngles(h2, m2, 0).hourAngle
    ensures HandAngles(h2, m2, 0).hourAngle - HandAngles(h1, m1, 0).hourAngle
         == ((h2 * 60 + m2) - (h1 * 60 + m1)) as real * 0.5
  {
  }

  /** Different minutes and seconds show different minute and second hands. */
  lemma HandsShowTheTime(h1: nat, m1: nat, s1: nat, h2: nat, m2: nat, s2: nat)
    requires h1 < 12 && m1 < 60 && s1 < 60 && h2 < 12 && m2 < 60 && s2 < 60
    requires HandAngles(h1, m1, s1) == HandAngles(h2, m2, s2)
    ensures h1 == h2 && m1 == m2 && s1 == s2
  {
  }

  /** The marker `renderMarkers` draws at step `i`: every fifth one is an hour marker, 6 degrees apart. */
  function MarkerAt(i: nat): (m: Marker)
    ensures m.angle == 6 * i
    ensures m.isHour <==> i % 5 == 0
  {
    Marker(i % 5 == 0, i * 6)
  }

  /** On the hour, the hour hand points exactly at the hour marker drawn at step 5 times the hour. */
  lemma HourHandOnMarker(hours: nat, seconds: nat)
    requires hours < 12 && seconds < 60
    ensures MarkerAt(5 * hours).isHour
    ensures HandAngles(hours, 0, seconds).hourAngle == MarkerAt(5 * hours).angle as real
  {
  }

  /** How many of the markers are hour markers. */
  function CountHourMarkers(markers: seq<Marker>): (n: nat)
    ensures n <= |markers|
  {
    if markers == [] then 0
    else CountHourMarkers(markers[..|markers| - 1]) + (if markers[|markers| - 1].isHour then 1 else 0)
  }

  /** Appending a marker adds one to the count exactly when it is an hour marker. */
  lemma CountHourMarkersAppend(markers: seq<Marker>, m: Marker)
    ensures CountHourMarkers(markers + [m]) == CountHourMarkers(markers) + (if m.isHour then 1 else 0)
  {
    assert (markers + [m])[..|markers|] == markers;
  }

  /** Among the steps below `i + 1`, those divisible by 5 number one more than below `i` exactly when 5 divides `i`. */
  lemma MultiplesOfFiveStep(i: nat)
    ensures (i + 4) / 5 + (if i % 5 == 0 then 1 else 0) == (i + 5) / 5
  {
  }

  /** The Swiss clock widget's state: the time it shows, with hours on a 12-hour dial. */
  class SwissClockWidget {
    var hours: nat
    var minutes: nat
    var seconds: nat

    /** A time the dial can show. */
    predicate Valid()
      reads this
    {
      hours < 12 && minutes < 60 && seconds < 60
    }

    /** A new clock shows 12 o'clock until the first `updateTime`. */
    constructor ()
      ensures Valid()
      ensures hours == 0 && minutes == 0 && seconds == 0
    {
      hours, minutes, seconds := 0, 0, 0;
    }

    /** `updateTime`, given the hour (0 to 23), minute and second the clock reads now. */
    method UpdateTime(h: nat, m: nat, s: nat)
      requires h < 24 && m < 60 && s < 60
      modifies this
      ensures Valid()
      ensures hours == h % 12 && minutes == m && seconds == s
      ensures hours * 60 + minutes == (h * 60 + m) % 720
    {
      hours, minutes, seconds := h % 12, m, s;
    }

    /** `renderClock`: the hands for the time the widget holds. */
    function RenderClock(): (hands: Hands)
      requires Valid()
      reads this
      ensures 0.0 <= hands.hourAngle < 360.0
      ensures hands.minuteAngle == 6 * minutes && hands.secondAngle == 6 * seconds
    {
      HandAngles(hours, minutes, seconds)
    }

    /**
     * `renderMarkers`: the sixty markers of the face, in order, one every 6
     * degrees, of which exactly twelve (one every five) are hour markers.
     */
    method RenderMarkers() returns (markers: seq<Marker>)
      ensures |markers| == 60
      ensures forall i :: 0 <= i < 60 ==> markers[i] == MarkerAt(i)
      ensures CountHourMarkers(markers) == 12
    {
      markers := [];
      var i := 0;
      while i < 60
        invariant 0 <= i <= 60 && |markers| == i
        invariant forall j :: 0 <= j < i ==> markers[j] == MarkerAt(j)
        invariant CountHourMarkers(markers) == (i + 4) / 5
      {
        var isHour := i % 5 == 0;
        var angle := i * 6;
        CountHourMarkersAppend(markers, Marker(isHour, angle));
        MultiplesOfFiveStep(i);
        markers := markers + [Marker(isHour, angle)];
        i := i + 1;
      }
    }
  }
}
