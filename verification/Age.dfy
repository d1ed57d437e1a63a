/**
 Ages (shared/src/dates.ts) and the three other places that decide whether a
 person is an adult: the platform-staff script, the registration questionnaire
 and the member profile form.
 */
module Age {
  import opened Calendar
  import opened Wrappers

  /** The day a person born on `birth` turns `years`: 29 February falls on 1 March in common years. */
  function Anniversary(birth: Civil, years: int): int {
    var year := birth.year + years;
    if birth.month == 2 && birth.day == 29 && !Leap(year) then DayNumber(Civil(year, 3, 1))
    else DayNumber(Civil(year, birth.month, birth.day))
  }

  // ---- Operations

  /** `None` is the RangeError for a day before the birth. */
  function AgeOnDate(birth: Civil, on: Civil): Option<int> {
    if Earlier(on, birth) then None
    else
      var leapBirthday := birth.month == 2 && birth.day == 29 && !Leap(on.year);
      var birthday := if leapBirthday then Civil(on.year, 3, 1) else Civil(on.year, birth.month, birth.day);
      Some(on.year - birth.year - (if Earlier(on, birthday) then 1 else 0))
  }

  predicate AdultOn(birth: Civil, on: Civil) {
    var age := AgeOnDate(birth, on);
    age.Some? && age.value >= 18
  }

  const MS_PER_DAY := 86400000

  /** The UTC day of an instant in milliseconds since 1970. */
  function UtcDay(t: int): int {
    t / MS_PER_DAY + EPOCH
  }

  function UtcMidnight(n: int): int {
    (n - EPOCH) * MS_PER_DAY
  }

  /** `setUTCFullYear` on a midnight: a date the year lacks runs over into the next month. */
  function SetFullYear(n: int, year: int): int {
    MonthStart(12 * year + CivilOf(n).month - 1) + CivilOf(n).day - 1
  }

  /** The UTC day of an instant has begun and the next has not, counted from 1 January 1970. */
  lemma UtcDayExact(t: int, n: int)
    ensures UtcDay(t) == n <==> UtcMidnight(n) <= t < UtcMidnight(n + 1)
    ensures UtcMidnight(DayNumber(Civil(1970, 1, 1))) == 0 && UtcMidnight(n + 1) - UtcMidnight(n) == 24 * 60 * 60 * 1000
  {
    hide DayNumber;
    EpochIsThursday();
    assert t == t / MS_PER_DAY * MS_PER_DAY + t % MS_PER_DAY;
  }

  /** The rejection at the start of the platform-administrator script. */
  method PlatformStaffCheck(dateOfBirth: Civil, now: int) returns (accepted: bool)
    requires dateOfBirth.Valid()
    ensures accepted <==> AdultOn(dateOfBirth, CivilOf(UtcDay(now)))
  {
    hide CivilOf, DayNumber, SetFullYear, AdultOn;
    var eighteenthBirthday := DayNumber(dateOfBirth);
    eighteenthBirthday := SetFullYear(eighteenthBirthday, CivilOf(eighteenthBirthday).year + 18);
    accepted := !(UtcMidnight(eighteenthBirthday) > now);

    CivilOfDayNumber(dateOfBirth);
    RolledAnniversary(dateOfBirth, 18);
    DayNumberOfCivil(UtcDay(now));
    AdultExact(dateOfBirth, CivilOf(UtcDay(now)));
  }

  function CalendarYears(birth: Civil, on: Civil): int {
    on.year - birth.year
    - (if on.month < birth.month || (on.month == birth.month && on.day < birth.day) then 1 else 0)
  }

  /** The questionnaire's `adult`; a profile without a birthdate goes by its kind. */
  predicate QuestionnaireAdult(birthdate: Option<Civil>, kind: string, today: Option<Civil>) {
    if birthdate.None? then kind in ["parent", "staff"]
    else today.Some? && CalendarYears(birthdate.value, today.value) >= 18
  }

  /** The profile form's `isChild`; the number of the year is tested for zero. */
  predicate ProfileIsChild(hasPerson: bool, birthdate: Option<Civil>, today: Civil) {
    !hasPerson || (birthdate.Some? && birthdate.value.year != 0 && CalendarYears(birthdate.value, today) < 18)
  }

  // ---- What they decide

  lemma AnniversaryIsDay(birth: Civil, years: int)
    requires birth.Valid()
    ensures var year := birth.year + years;
            var c := if birth.month == 2 && birth.day == 29 && !Leap(year)
                     then Civil(year, 3, 1) else Civil(year, birth.month, birth.day);
            c.Valid() && Anniversary(birth, years) == DayNumber(c)
  {
    hide DayNumber, Leap;
  }

  /** Each anniversary comes after the one before. */
  lemma AnniversariesAscend(birth: Civil, a: int, b: int)
    requires birth.Valid() && a < b
    ensures Anniversary(birth, a) < Anniversary(birth, b)
  {
    hide DayNumber, Anniversary, Civil.Valid, Leap;
    AnniversaryIsDay(birth, a);
    AnniversaryIsDay(birth, b);
    var y, z := birth.year + a, birth.year + b;
    var leap := birth.month == 2 && birth.day == 29;
    DayNumberOrders(if leap && !Leap(y) then Civil(y, 3, 1) else Civil(y, birth.month, birth.day),
                    if leap && !Leap(z) then Civil(z, 3, 1) else Civil(z, birth.month, birth.day));
  }

  /** The age is the one number of years whose anniversary has come and whose next has not. */
  lemma AgeExact(birth: Civil, on: Civil, n: int)
    requires birth.Valid() && on.Valid()
    ensures AgeOnDate(birth, on) == Some(n)
       <==> 0 <= n && Anniversary(birth, n) <= DayNumber(on) < Anniversary(birth, n + 1)
  {
    hide DayNumber, Anniversary, Leap;
    BirthdayExact(birth, on, on.year - birth.year);
    BirthdayExact(birth, on, n);
    BirthdayExact(birth, on, n + 1);
  }

  /** When an anniversary has come, told from the fields. */
  lemma BirthdayExact(birth: Civil, on: Civil, n: int)
    requires birth.Valid() && on.Valid()
    ensures DayNumber(on) < Anniversary(birth, n)
       <==> Earlier(on, if birth.month == 2 && birth.day == 29 && !Leap(birth.year + n)
                        then Civil(birth.year + n, 3, 1) else Civil(birth.year + n, birth.month, birth.day))
  {
    hide DayNumber, Anniversary, Civil.Valid, Leap;
    AnniversaryIsDay(birth, n);
    var year := birth.year + n;
    DayNumberOrders(on, if birth.month == 2 && birth.day == 29 && !Leap(year)
                        then Civil(year, 3, 1) else Civil(year, birth.month, birth.day));
  }

  /** Nobody grows younger, and an earlier birth never means a lower age. */
  lemma AgeMonotone(birth: Civil, laterBirth: Civil, on: Civil, laterOn: Civil)
    requires birth.Valid() && laterBirth.Valid() && on.Valid() && laterOn.Valid()
    requires DayNumber(birth) <= DayNumber(laterBirth) && DayNumber(on) <= DayNumber(laterOn)
    requires AgeOnDate(laterBirth, on).Some?
    ensures AgeOnDate(birth, laterOn).Some?
    ensures AgeOnDate(birth, laterOn).value >= AgeOnDate(laterBirth, on).value
  {
    hide DayNumber, Civil.Valid, AgeOnDate;
    var younger := AgeOnDate(laterBirth, on).value;
    AgeExact(laterBirth, on, younger);
    AnniversariesFollowBirths(birth, laterBirth, younger);
    AgeDefined(birth, laterOn, younger);
    var older := AgeOnDate(birth, laterOn).value;
    AgeExact(birth, laterOn, older);
    if older < younger {
      if older + 1 < younger {
        AnniversariesAscend(birth, older + 1, younger);
      }
    }
  }

  lemma AgeDefined(birth: Civil, on: Civil, n: int)
    requires birth.Valid() && on.Valid()
    requires 0 <= n && Anniversary(birth, n) <= DayNumber(on)
    ensures AgeOnDate(birth, on).Some?
  {
    hide DayNumber, Anniversary;
    BirthdayExact(birth, on, n);
  }

  lemma AnniversariesFollowBirths(birth: Civil, laterBirth: Civil, years: int)
    requires birth.Valid() && laterBirth.Valid() && DayNumber(birth) <= DayNumber(laterBirth)
    ensures Anniversary(birth, years) <= Anniversary(laterBirth, years)
  {
    hide DayNumber, Anniversary, Leap;
    DayNumberOrders(laterBirth, birth);
    AnniversaryIsDay(birth, years);
    AnniversaryIsDay(laterBirth, years);
    var y, z := birth.year + years, laterBirth.year + years;
    DayNumberOrders(if laterBirth.month == 2 && laterBirth.day == 29 && !Leap(z)
                    then Civil(z, 3, 1) else Civil(z, laterBirth.month, laterBirth.day),
                    if birth.month == 2 && birth.day == 29 && !Leap(y)
                    then Civil(y, 3, 1) else Civil(y, birth.month, birth.day));
  }

  /** An adult is someone whose eighteenth anniversary has come. */
  lemma AdultExact(birth: Civil, on: Civil)
    requires birth.Valid() && on.Valid()
    ensures AdultOn(birth, on) <==> Anniversary(birth, 18) <= DayNumber(on)
  {
    hide DayNumber, Anniversary, AgeOnDate, Civil.Valid;
    if AgeOnDate(birth, on).Some? {
      var n := AgeOnDate(birth, on).value;
      AgeExact(birth, on, n);
      if n < 17 {
        AnniversariesAscend(birth, n + 1, 18);
      } else if n > 18 {
        AnniversariesAscend(birth, 18, n);
      }
    } else if Anniversary(birth, 18) <= DayNumber(on) {
      AgeDefined(birth, on, 18);
    }
  }

  /** The script's roll-over of the birthday is the anniversary. */
  lemma RolledAnniversary(birth: Civil, years: int)
    requires birth.Valid()
    ensures SetFullYear(DayNumber(birth), birth.year + years) == Anniversary(birth, years)
  {
    hide DaysBeforeYear, DaysBeforeMonth, CivilOf;
    CivilOfDayNumber(birth);
    var year := birth.year + years;
    var index := 12 * year + birth.month - 1;
    assert index / 12 == year && index % 12 + 1 == birth.month;
    FirstMonth(year);
    MonthLength(year, 2);
  }

  /**
   The questionnaire and the profile form decide adulthood as `ageOnDate` does,
   the latter unless a minor was born in year 0, which no present day allows.
   */
  lemma AdultFormulasAgree(birth: Civil, today: Civil, kind: string)
    requires birth.Valid() && today.Valid()
    ensures QuestionnaireAdult(Some(birth), kind, Some(today)) <==> AdultOn(birth, today)
    ensures (ProfileIsChild(true, Some(birth), today) <==> !AdultOn(birth, today))
       <==> (birth.year != 0 || AdultOn(birth, today))
    ensures today.year > 18 ==> (ProfileIsChild(true, Some(birth), today) <==> !AdultOn(birth, today))
  {
    hide Leap;
  }

  /**
   What is decided without dates: without a birthdate the questionnaire takes
   parents and staff for adults, and without the present day nobody who has one;
   the profile form takes a person yet to be added for a child and a known person
   without a birthdate for an adult.
   */
  lemma AdultWithoutDates(birthdate: Option<Civil>, kind: string, today: Civil)
    ensures QuestionnaireAdult(None, kind, Some(today)) <==> kind == "parent" || kind == "staff"
    ensures birthdate.Some? ==> !QuestionnaireAdult(birthdate, kind, None)
    ensures ProfileIsChild(false, birthdate, today) && !ProfileIsChild(true, None, today)
  {
  }
}
