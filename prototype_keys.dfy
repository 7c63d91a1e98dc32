/**
 * The totals dictionary of the ranking page is a plain JavaScript object
 * literal, so a lookup of a name that is not yet an own key falls through to
 * the members every object inherits. This module models the tally step as
 * written, with that lookup, and shows where it departs from the per-name
 * sums that `Ranking.Tally` computes.
 */
module PrototypeKeys {
  import opened Options
  import Ranking

  /** The names every plain object answers through its prototype. */
  const InheritedMembers: set<string> := {
    "constructor", "hasOwnProperty", "isPrototypeOf", "propertyIsEnumerable",
    "toLocaleString", "toString", "valueOf", "__proto__",
    "__defineGetter__", "__defineSetter__", "__lookupGetter__", "__lookupSetter__"
  }

  /** What `totals[name]` can evaluate to. */
  datatype Value =
    | Undefined        // no own key and no inherited member
    | Num(n: int)      // a number stored by an earlier step
    | Inherited        // an inherited function or object: truthy, and not a number
    | Text             // a string made by `+` with a non-number on its left

  /** `totals[name]` on a plain object. */
  function Lookup(totals: map<string, Value>, name: string): Value
  {
    if name in totals then totals[name]
    else if name in InheritedMembers then Inherited
    else Undefined
  }

  /** `(totals[name] || 0) + points`: a non-number on the left turns `+` into string concatenation. */
  function Accumulate(current: Value, points: int): Value
  {
    match current
    case Undefined => Num(points)
    case Num(n) => Num((if n != 0 then n else 0) + points)
    case Inherited => Text
    case Text => Text
  }

  /** One pass of the `forEach` body; assigning a non-object to `__proto__` is ignored. */
  function StepAsWritten(totals: map<string, Value>, r: Ranking.Report): map<string, Value>
  {
    var name := r.userName;
    var next := Accumulate(Lookup(totals, name), Ranking.Contribution(r));
    if name == "__proto__" then totals else totals[name := next]
  }

  /** The whole `forEach` loop as the page runs it. */
  function TallyAsWritten(rows: seq<Ranking.Report>): map<string, Value>
  {
    if rows == [] then map[]
    else StepAsWritten(TallyAsWritten(rows[..|rows| - 1]), rows[|rows| - 1])
  }

  /** A reporter named "toString" gets a string instead of a point total. */
  lemma ToStringReporterIsGarbled()
    ensures var rows := [Ranking.Report("toString", Ranking.ApprovedStatus, Some(Ranking.ActivityType(Some(10))))];
      && Ranking.SumFor(rows, "toString") == 10
      && "toString" in TallyAsWritten(rows)
      && TallyAsWritten(rows)["toString"] == Text
  {
    var rows := [Ranking.Report("toString", Ranking.ApprovedStatus, Some(Ranking.ActivityType(Some(10))))];
    assert rows[..0] == [];
    assert "toString" in InheritedMembers;
  }

  /** A reporter named "__proto__" never appears in the totals at all. */
  lemma ProtoReporterVanishes()
    ensures var rows := [Ranking.Report("__proto__", Ranking.ApprovedStatus, Some(Ranking.ActivityType(Some(10))))];
      && "__proto__" in Ranking.Names(rows)
      && "__proto__" !in TallyAsWritten(rows)
  {
    var rows := [Ranking.Report("__proto__", Ranking.ApprovedStatus, Some(Ranking.ActivityType(Some(10))))];
    assert rows[..0] == [];
    assert rows[0] in rows;
  }

  /**
   * When no reporter's name is an inherited member, the page's loop computes
   * exactly the per-name sums that `Ranking.Tally` promises.
   */
  lemma {:induction false} AsWrittenAgreesOnOrdinaryNames(rows: seq<Ranking.Report>)
    requires forall r :: r in rows ==> r.userName !in InheritedMembers
    ensures TallyAsWritten(rows).Keys == Ranking.Names(rows)
    ensures forall name :: name in TallyAsWritten(rows) ==> TallyAsWritten(rows)[name] == Num(Ranking.SumFor(rows, name))
  {
    if rows != [] {
      var init, last := rows[..|rows| - 1], rows[|rows| - 1];
      assert rows == init + [last];
      assert forall r :: r in init ==> r in rows;
      assert last in rows;
      AsWrittenAgreesOnOrdinaryNames(init);
      var before := TallyAsWritten(init);
      var name := last.userName;
      assert name != "__proto__";
      var sofar := if name in before then before[name] else Undefined;
      assert Lookup(before, name) == sofar;
      if name !in Ranking.Names(init) {
        Ranking.SumForAbsent(init, name);
      }
      assert TallyAsWritten(rows) == before[name := Accumulate(sofar, Ranking.Contribution(last))];
      assert Ranking.Names(rows) == Ranking.Names(init) + {name} by {
        assert forall r :: r in rows <==> r in init || r == last;
      }
    }
  }
}
