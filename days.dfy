/**
 * Calendar days and their storage keys. The client keys a day by
 * `formatDateISO`, the ISO text of its local midnight; here a day is its
 * number counted from the epoch and its key an injective rendering of that
 * number, which is all the pages rely on.
 */
module Days {
  import opened Text

  /** A calendar day: today is `t`, yesterday `t - 1`. */
  type Day = int

  /** A timestamp in milliseconds, reckoned in the user's local time. */
  type Time = int

  /** A clock reading (`Date.now()`): always after the epoch. */
  type Instant = t: int | t > 0 witness 1

  const MsPerDay: int := 86400000

  /** The local calendar day a timestamp falls on. */
  function DayOf(t: Time): Day {
    t / MsPerDay
  }

  /** The storage key of a day. */
  function Key(d: Day): string {
    if d < 0 then "-" + NatText(-d) else NatText(d)
  }

  /** A key starts with a minus sign exactly for the days before the epoch. */
  lemma KeySign(d: Day)
    ensures |Key(d)| >= 1
    ensures Key(d)[0] == '-' <==> d < 0
    ensures d < 0 ==> Key(d)[1..] == NatText(-d)
    ensures d >= 0 ==> Key(d) == NatText(d)
  {
    if d >= 0 {
      NatTextShape(d);
      assert IsDigit(NatText(d)[0]);
    }
  }

  /** Distinct days have distinct keys. */
  lemma KeyInjective(a: Day, b: Day)
    ensures Key(a) == Key(b) ==> a == b
  {
    if Key(a) == Key(b) {
      KeySign(a);
      KeySign(b);
      if a < 0 {
        var na, nb := -a, -b;
        assert NatText(na) == NatText(nb);
        NatTextInjective(na, nb);
      } else {
        NatTextInjective(a, b);
      }
    }
  }

  /** The same fact for every pair of days at once. */
  lemma KeysInjective()
    ensures forall a: Day, b: Day :: Key(a) == Key(b) ==> a == b
  {
    forall a: Day, b: Day ensures Key(a) == Key(b) ==> a == b {
      KeyInjective(a, b);
    }
  }
}
