/**
  The department selector of the main window (app/src/mainwindow.cpp): the
  items fillDepartmentsList puts in the combo box, and the SQL filter the
  table of general information gets when a department is chosen.
 */
module Departments {
  import opened Common

  /** The first item: show the workers of every department. */
  const AllDepartments: string := "-Все отделы-"
  /** The second item: show the workers with no department. */
  const NoDepartment: string := "-Отдел не указан-"
  /** What every department filter starts with: the column, then the
      opening quote of an SQL string literal. */
  const FilterPrefix: string := "[Отдел]='"

  // ---------------------------------------------------------------------
  // The order of the combo box

  /** `a` sorts before `b` or equals it: code units compared one by one,
      and a prefix before the longer string. */
  predicate Precedes(a: string, b: string)
    decreases |a|
  {
    a == [] || (b != [] && (a[0] < b[0] || (a[0] == b[0] && Precedes(a[1..], b[1..]))))
  }

  lemma {:induction false} PrecedesTotal(a: string, b: string)
    ensures Precedes(a, b) || Precedes(b, a)
    decreases |a|
  {
    if a != [] && b != [] && a[0] == b[0] {
      PrecedesTotal(a[1..], b[1..]);
    }
  }

  predicate SortedStrings(s: seq<string>)
  {
    forall i :: 0 < i < |s| ==> Precedes(s[i - 1], s[i])
  }

  function InsertSorted(x: string, s: seq<string>): (r: seq<string>)
    requires SortedStrings(s)
    ensures SortedStrings(r) && multiset(r) == multiset(s) + multiset{x}
    ensures |r| == |s| + 1 && (r[0] == x || (s != [] && r[0] == s[0]))
  {
    if s == [] then [x]
    else if Precedes(x, s[0]) then [x] + s
    else
      PrecedesTotal(x, s[0]);
      assert s == [s[0]] + s[1..];
      [s[0]] + InsertSorted(x, s[1..])
  }

  /** The sort the combo box model applies to its items. */
  function SortStrings(s: seq<string>): (r: seq<string>)
    ensures SortedStrings(r) && multiset(r) == multiset(s)
  {
    if s == [] then []
    else
      assert s == [s[0]] + s[1..];
      InsertSorted(s[0], SortStrings(s[1..]))
  }

  // ---------------------------------------------------------------------
  // fillDepartmentsList

  /** The values of the department column the query returns, without the
      empty ones, in the order returned. */
  function NonEmpty(values: seq<string>): (r: seq<string>)
    ensures forall d :: d in r <==> d in values && d != []
  {
    if values == [] then []
    else (if values[0] != [] then [values[0]] else []) + NonEmpty(values[1..])
  }

  lemma {:induction false} NonEmptyStep(values: seq<string>, i: nat)
    requires i < |values|
    ensures NonEmpty(values[i..]) == (if values[i] != [] then [values[i]] else []) + NonEmpty(values[i + 1..])
  {
    assert values[i..][1..] == values[i + 1..];
  }

  /** The items of the combo box after fillDepartmentsList. */
  function DepartmentItems(values: seq<string>): seq<string>
  {
    [AllDepartments, NoDepartment] + SortStrings(NonEmpty(values))
  }

  /** The two fixed items come first, then every non-empty department value
      exactly as often as the query returned it, sorted. */
  lemma {:induction false} DepartmentItemsLayout(values: seq<string>)
    ensures var items := DepartmentItems(values);
      && |items| >= 2 && items[0] == AllDepartments && items[1] == NoDepartment
      && SortedStrings(items[2..])
      && multiset(items[2..]) == multiset(NonEmpty(values))
      && (forall d :: d in items[2..] <==> d in values && d != [])
  {
    var items := DepartmentItems(values);
    assert items[2..] == SortStrings(NonEmpty(values));
    forall d
      ensures d in items[2..] <==> d in values && d != []
    {
      assert d in items[2..] <==> d in multiset(items[2..]);
      assert d in NonEmpty(values) <==> d in multiset(NonEmpty(values));
    }
  }

  /** The item shown after QComboBox::setCurrentText(text) on a combo box
      that is not editable: `text` when it is one of the items, otherwise
      the item shown before. */
  function TextAfterSetCurrent(items: seq<string>, current: string, text: string): string
  {
    if text in items then text else current
  }

  // ---------------------------------------------------------------------
  // The filter for a chosen department

  /** The filter set and the item made current when `dept` is chosen. */
  datatype Selection = Selection(filter: string, current: string)

  /** The department filter as written: a department that is no longer in
      the list (it lost its last worker when the changes were accepted)
      falls back to "all departments"; "no department" selects the empty
      value; any other department is put between quotes as it is. */
  function DepartmentFilter(items: seq<string>, dept: string): (r: Selection)
    ensures dept !in items ==> r == Selection([], AllDepartments)
    ensures dept in items ==> r.current == dept
    ensures r.filter == [] <==> dept !in items || dept == AllDepartments
  {
    if dept !in items then Selection([], AllDepartments)
    else if dept == AllDepartments then Selection([], dept)
    else if dept == NoDepartment then Selection(FilterPrefix + "'", dept)
    else Selection(FilterPrefix + dept + "'", dept)
  }

  /** An SQL string literal's remainder after its opening quote: the text up
      to the closing quote, with each doubled quote standing for one quote.
      None when the literal is not closed or the closing quote is not the
      last character of `s`. */
  function Unquote(s: string): Option<string>
    decreases |s|
  {
    if s == [] then None
    else if s[0] == '\'' then
      if |s| == 1 then Some([])
      else if s[1] == '\'' then
        match Unquote(s[2..])
        case Some(v) => Some(['\''] + v)
        case None => None
      else None
    else
      match Unquote(s[1..])
      case Some(v) => Some([s[0]] + v)
      case None => None
  }

  /** The department value a filter selects: Some(v) for a filter
      [Отдел]='...' whose literal spells v, None for any other text. */
  function FilterValue(filter: string): Option<string>
  {
    if |filter| >= |FilterPrefix| && filter[..|FilterPrefix|] == FilterPrefix
    then Unquote(filter[|FilterPrefix|..])
    else None
  }

  /** How a value is written inside an SQL string literal: every quote doubled. */
  function Escape(v: string): (r: string)
    ensures |r| >= |v| && ('\'' in v ==> |r| > |v|)
  {
    if v == [] then []
    else (if v[0] == '\'' then "''" else [v[0]]) + Escape(v[1..])
  }

  /** Reading a literal back gives the value escaped into it ... */
  lemma {:induction false} UnquoteEscape(v: string)
    ensures Unquote(Escape(v) + "'") == Some(v)
    decreases |v|
  {
    if v != [] {
      UnquoteEscape(v[1..]);
      if v[0] == '\'' {
        assert Escape(v) + "'" == "''" + (Escape(v[1..]) + "'");
      } else {
        assert Escape(v) + "'" == [v[0]] + (Escape(v[1..]) + "'");
      }
      assert v == [v[0]] + v[1..];
    }
  }

  /** ... and a literal that reads as a value is that value escaped. */
  lemma {:induction false} UnquoteInverse(s: string)
    requires Unquote(s).Some?
    ensures s == Escape(Unquote(s).value) + "'"
    decreases |s|
  {
    if s[0] == '\'' {
      if |s| > 1 {
        UnquoteInverse(s[2..]);
        var v := Unquote(s[2..]).value;
        assert Unquote(s).value == ['\''] + v;
        assert Escape(['\''] + v) == "''" + Escape(v) by {
          assert (['\''] + v)[1..] == v;
        }
        assert s == s[..2] + s[2..];
      }
    } else {
      UnquoteInverse(s[1..]);
      var v := Unquote(s[1..]).value;
      assert Unquote(s).value == [s[0]] + v;
      assert Escape([s[0]] + v) == [s[0]] + Escape(v) by {
        assert ([s[0]] + v)[1..] == v;
      }
      assert s == [s[0]] + s[1..];
    }
  }

  lemma {:induction false} FilterValueOf(v: string)
    ensures FilterValue(FilterPrefix + Escape(v) + "'") == Some(v)
  {
    var f := FilterPrefix + Escape(v) + "'";
    assert f[..|FilterPrefix|] == FilterPrefix;
    assert f[|FilterPrefix|..] == Escape(v) + "'";
    UnquoteEscape(v);
  }

  /** The filter as written, for a department whose name holds a quote
      (say "O'Brien"): the text is not a literal that selects that
      department, because the quote in the name ends the literal early. */
  lemma {:induction false} QuotedDepartmentBreaksFilter(items: seq<string>, dept: string)
    requires dept in items && dept != AllDepartments && dept != NoDepartment
    requires '\'' in dept
    ensures FilterValue(DepartmentFilter(items, dept).filter) != Some(dept)
  {
    var f := DepartmentFilter(items, dept).filter;
    assert f == FilterPrefix + dept + "'";
    assert f[..|FilterPrefix|] == FilterPrefix;
    assert f[|FilterPrefix|..] == dept + "'";
    if Unquote(dept + "'") == Some(dept) {
      UnquoteInverse(dept + "'");
      assert false;
    }
  }

  /** The filter with the department escaped into the literal. */
  function EscapedDepartmentFilter(items: seq<string>, dept: string): (r: Selection)
    ensures dept !in items ==> r == Selection([], AllDepartments)
    ensures dept in items ==> r.current == dept
    ensures r.filter == [] <==> dept !in items || dept == AllDepartments
  {
    if dept !in items then Selection([], AllDepartments)
    else if dept == AllDepartments then Selection([], dept)
    else if dept == NoDepartment then Selection(FilterPrefix + "'", dept)
    else Selection(FilterPrefix + Escape(dept) + "'", dept)
  }

  /** Every department in the list gets a filter that selects exactly it;
      "no department" selects the empty value; "all departments" and a
      department no longer listed set no filter. For a name without quotes
      the filter is the one written in the source. */
  lemma {:induction false} EscapedFilterSelectsDepartment(items: seq<string>, dept: string)
    ensures var r := EscapedDepartmentFilter(items, dept);
      && (dept in items && dept != AllDepartments && dept != NoDepartment ==>
            FilterValue(r.filter) == Some(dept))
      && (dept in items && dept == NoDepartment ==> FilterValue(r.filter) == Some([]))
      && ('\'' !in dept ==> r == DepartmentFilter(items, dept))
  {
    FilterValueOf(dept);
    FilterValueOf([]);
    if '\'' !in dept {
      EscapeWithoutQuotes(dept);
    }
  }

  lemma {:induction false} EscapeWithoutQuotes(v: string)
    requires '\'' !in v
    ensures Escape(v) == v
    decreases |v|
  {
    if v != [] {
      assert '\'' !in v[1..] by {
        forall c | c in v[1..] ensures c != '\'' { }
      }
      EscapeWithoutQuotes(v[1..]);
      assert v == [v[0]] + v[1..];
    }
  }
}
