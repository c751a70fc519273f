/** Source lines and their addresses. */
module DebugLines {

  const NO_ADDRESS: nat := 0xffff_ffff_ffff_ffff

  datatype Lineinfo = Lineinfo(line: int, address: nat, unit: int)

  predicate Matches(l: Lineinfo, unit: int, line: int) {
    l.unit == unit && l.line == line
  }

  /** The address of the first row for a unit and line; -1, in a uint64_t, if there is none. */
  ghost predicate FirstMatch(rows: seq<Lineinfo>, unit: int, line: int, address: nat) {
    if exists i | 0 <= i < |rows| :: Matches(rows[i], unit, line)
    then exists i | 0 <= i < |rows| ::
      && Matches(rows[i], unit, line) && address == rows[i].address
      && forall j | 0 <= j < i :: !Matches(rows[j], unit, line)
    else address == 0xffff_ffff_ffff_ffff
  }

  /** The unit number is larger than every one there is, and than 0. */
  predicate UnitTooLarge(rows: seq<Lineinfo>, unit: int) {
    unit > 0 && forall i | 0 <= i < |rows| :: rows[i].unit < unit
  }

  class DebugLineInfo {
    /** D_lines */
    var rows: seq<Lineinfo>

    constructor ()
      ensures rows == []
    {
      rows := [];
    }

    method AppendElement(line: int, address: nat, unit: int)
      modifies this
      ensures rows == old(rows) + [Lineinfo(line, address, unit)]
    {
      rows := rows + [Lineinfo(line, address, unit)];
    }

    /** The largest unit number, or 0. */
    method GetNoOfCompilationUnits() returns (max: int)
      ensures 0 <= max && forall i | 0 <= i < |rows| :: rows[i].unit <= max
      ensures max == 0 || exists i | 0 <= i < |rows| :: rows[i].unit == max
    {
      max := 0;
      for i := 0 to |rows|
        invariant 0 <= max && forall j | 0 <= j < i :: rows[j].unit <= max
        invariant max == 0 || exists j | 0 <= j < i :: rows[j].unit == max
      {
        if rows[i].unit > max {
          max := rows[i].unit;
        }
      }
    }

    /** The largest line number of a unit, or 0; -1 for a unit number that is too large. */
    method GetMaxLineNumber(unit: int) returns (max: int)
      ensures forall i | 0 <= i < |rows| && rows[i].unit == unit :: rows[i].line <= max
      ensures max == -1 <==> UnitTooLarge(rows, unit)
      ensures max != -1 ==> max == 0 || exists i | 0 <= i < |rows| :: Matches(rows[i], unit, max)
    {
      var units := GetNoOfCompilationUnits();
      if unit > units {
        return -1;
      }
      max := 0;
      for i := 0 to |rows|
        invariant 0 <= max && forall j | 0 <= j < i && rows[j].unit == unit :: rows[j].line <= max
        invariant max == 0 || exists j | 0 <= j < i :: Matches(rows[j], unit, max)
      {
        if rows[i].unit == unit {
          if rows[i].line > max {
            max := rows[i].line;
          }
        }
      }
    }

    /** The smallest of the line numbers of a unit and whatever the uninitialised prev_min held. */
    method GetMinLineNumber(unit: int, uninitialised: int) returns (min: int)
      ensures forall i | 0 <= i < |rows| && rows[i].unit == unit :: min <= rows[i].line
      ensures if UnitTooLarge(rows, unit) then min == -1
        else min == uninitialised || exists i | 0 <= i < |rows| :: Matches(rows[i], unit, min)
      ensures !UnitTooLarge(rows, unit) ==> min <= uninitialised
    {
      var units := GetNoOfCompilationUnits();
      if unit > units {
        return -1;
      }
      min := uninitialised;
      for i := 0 to |rows|
        invariant min <= uninitialised
        invariant forall j | 0 <= j < i && rows[j].unit == unit :: min <= rows[j].line
        invariant min == uninitialised || exists j | 0 <= j < i :: Matches(rows[j], unit, min)
      {
        if rows[i].unit == unit {
          if rows[i].line < min {
            min := rows[i].line;
          }
        }
      }
    }

    /** The range checks never turn down a row that is there, whatever prev_min held. */
    method GetAddressByLine(unit: int, line: int, uninitialised: int) returns (address: nat)
      ensures FirstMatch(rows, unit, line, address)
    {
      var units := GetNoOfCompilationUnits();
      if unit > units {
        return NO_ADDRESS;
      }
      var max := GetMaxLineNumber(unit);
      if line > max {
        return NO_ADDRESS;
      }
      var min := GetMinLineNumber(unit, uninitialised);
      if line < min {
        return NO_ADDRESS;
      }
      for i := 0 to |rows|
        invariant forall j | 0 <= j < i :: !Matches(rows[j], unit, line)
      {
        if rows[i].unit == unit {
          if rows[i].line == line {
            return rows[i].address;
          }
        }
      }
      return NO_ADDRESS;
    }
  }

  /** The address is determined by the rows. */
  lemma FirstMatchUnique(rows: seq<Lineinfo>, unit: int, line: int, a: nat, b: nat)
    requires FirstMatch(rows, unit, line, a) && FirstMatch(rows, unit, line, b)
    ensures a == b
  {
  }
}
