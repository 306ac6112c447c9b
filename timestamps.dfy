/**
 * The `from`/`to` bounds of `retrieve`: a naive local time given to the
 * minute, composed with the UTC offset of the configured time zone.  The
 * offset itself (the time-zone database lookup, which depends on the date
 * because of daylight saving) is a parameter of the model.
 */
module Timestamps {

  /** The length of a numeric UTC offset such as "+0100" or "-0500". */
  const OffsetLength: nat := 5

  /** `t` with a zero seconds field and the numeric UTC offset appended. */
  function ComposeWithOffset(t: string, offset: string): (r: string)
    ensures |r| == |t| + 3 + |offset|
  {
    t + ":00" + offset
  }

  /** Splits a composed timestamp back into its local time and its offset. */
  function SplitComposed(r: string): (parts: (string, string))
    requires |r| >= 3 + OffsetLength
  {
    (r[..|r| - 3 - OffsetLength], r[|r| - OffsetLength..])
  }

  /** A composed timestamp holds the local time, then ":00", then the offset, and nothing else. */
  lemma ComposeRoundTrip(t: string, offset: string)
    requires |offset| == OffsetLength
    ensures SplitComposed(ComposeWithOffset(t, offset)) == (t, offset)
    ensures ComposeWithOffset(t, offset)[|t|..|t| + 3] == ":00"
  {
    var r := ComposeWithOffset(t, offset);
    assert r[..|t|] == t;
    assert r[|t| + 3..] == offset;
  }

  /** Different local times or offsets give different composed timestamps. */
  lemma ComposeInjective(t1: string, o1: string, t2: string, o2: string)
    requires |o1| == OffsetLength && |o2| == OffsetLength
    requires ComposeWithOffset(t1, o1) == ComposeWithOffset(t2, o2)
    ensures t1 == t2 && o1 == o2
  {
    ComposeRoundTrip(t1, o1);
    ComposeRoundTrip(t2, o2);
  }
}
