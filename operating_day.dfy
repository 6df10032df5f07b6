/**
 * Whether a date is an operating day in the customer panel: the Spanish name of its weekday
 * must be in the configured list, and a missing or empty list means the business is closed.
 */
module OperatingDay {
  import opened JsArray

  /** Weekday names indexed by the runtime's weekday number, 0 being Sunday. */
  const WeekdayNames: seq<string> :=
    ["Domingo", "Lunes", "Martes", "Miércoles", "Jueves", "Viernes", "Sábado"]

  /** The built-in list of the customer panel: Monday to Saturday. */
  const DefaultDays: seq<string> :=
    ["Lunes", "Martes", "Miércoles", "Jueves", "Viernes", "Sábado"]

  /** The operating-days value held in the configuration cache. */
  datatype OperatingDays =
    | NotSet                     // null, absent, or another falsy value (0, false, "")
    | Names(names: seq<string>)  // a list of weekday names
    | Numbers(days: seq<int>)    // a list of weekday numbers, as the staff panel's default
    | NotAList                   // a truthy value without `includes`: the membership test throws

  /** verificarDiaLaboralFecha for a date whose weekday number is `weekday`: open exactly when
      the weekday's name is in the configured list; a missing or empty list means closed, and
      a value whose membership test throws is let through by the error handler. */
  function IsOperatingDay(days: OperatingDays, weekday: int): (open: bool)
    requires 0 <= weekday < 7
    ensures open <==> days.NotAList? || (days.Names? && WeekdayNames[weekday] in days.names)
  {
    match days
    case NotSet => false
    case Names(names) => if |names| == 0 then false else Includes(names, WeekdayNames[weekday])
    case Numbers(_) => false
    case NotAList => true
  }

  /** With no list, or an empty one, no day is an operating day. */
  lemma ClosedWithoutDays(days: OperatingDays, weekday: int)
    requires 0 <= weekday < 7
    requires days == NotSet || days == Names([])
    ensures !IsOperatingDay(days, weekday)
  {
  }

  /** The built-in list opens Monday to Saturday and keeps Sunday closed. */
  lemma DefaultWeek(weekday: int)
    requires 0 <= weekday < 7
    ensures IsOperatingDay(Names(DefaultDays), weekday) <==> weekday != 0
  {
    if weekday == 0 {
      assert WeekdayNames[0] != DefaultDays[0];
      assert WeekdayNames[0] !in DefaultDays;
    } else {
      assert WeekdayNames[weekday] == DefaultDays[weekday - 1];
    }
  }

  /** A list of weekday numbers holds no weekday name, so the customer panel treats every day
      as closed under it. */
  lemma NumberedDaysCloseEveryDay(days: seq<int>, weekday: int)
    requires 0 <= weekday < 7
    ensures !IsOperatingDay(Numbers(days), weekday)
  {
  }
}
