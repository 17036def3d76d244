/**
 * The input rules of the command-line menu (main.py): `get_valid_date`,
 * `get_valid_number` and the checks of the "add a record" path, on input lines
 * already read. A prompt loop that has not yet received an acceptable value is
 * modelled as a result that says so.
 */
module Menu {
  import opened Results
  import opened Calendar
  import opened Records
  import opened DateText
  import opened Ledger

  /** The characters Python's `str.strip()` removes (`str.isspace`). */
  predicate IsSpace(c: char)
  {
    || c == ' '
    || '\t' <= c <= '\r'
    || '\U{1c}' <= c <= '\U{1f}'
    || c == '\U{85}' || c == '\U{a0}' || c == '\U{1680}'
    || '\U{2000}' <= c <= '\U{200a}'
    || c == '\U{2028}' || c == '\U{2029}' || c == '\U{202f}' || c == '\U{205f}' || c == '\U{3000}'
  }

  predicate Blank(s: string)
  {
    forall i | 0 <= i < |s| :: IsSpace(s[i])
  }

  /** Where the text starts once the whitespace from `i` on is skipped. */
  function SkipSpaces(s: string, i: nat): (j: nat)
    requires i <= |s|
    ensures i <= j <= |s|
    ensures forall k | i <= k < j :: IsSpace(s[k])
    ensures j == |s| || !IsSpace(s[j])
    decreases |s| - i
  {
    if i < |s| && IsSpace(s[i]) then SkipSpaces(s, i + 1) else i
  }

  /** Where the text ends once the whitespace before `j`, down to `lo`, is dropped. */
  function TrimSpaces(s: string, lo: nat, j: nat): (e: nat)
    requires lo <= j <= |s|
    ensures lo <= e <= j
    ensures forall k | e <= k < j :: IsSpace(s[k])
    ensures e == lo || !IsSpace(s[e - 1])
    decreases j
  {
    if j > lo && IsSpace(s[j - 1]) then TrimSpaces(s, lo, j - 1) else j
  }

  /** `str.strip()`. The result is empty exactly when the text is all whitespace. */
  function Strip(s: string): (r: string)
    ensures r == [] || (!IsSpace(r[0]) && !IsSpace(r[|r| - 1]))
    ensures r == [] <==> Blank(s)
  {
    var i := SkipSpaces(s, 0);
    var e := TrimSpaces(s, i, |s|);
    if i == e then
      assert i == |s|;
      []
    else
      assert !IsSpace(s[i]);
      s[i..e]
  }

  /** What `str.strip()` keeps is the line itself minus a leading and a trailing run of whitespace. */
  lemma StripKeepsMiddle(s: string)
    ensures exists i, e | 0 <= i <= e <= |s| :: Strip(s) == s[i..e] && Blank(s[..i]) && Blank(s[e..])
  {
    var i := SkipSpaces(s, 0);
    var e := TrimSpaces(s, i, |s|);
    assert Blank(s[..i]) && Blank(s[e..]);
    if i == e {
      assert [] == s[i..e];
    }
  }

  /**
   * The explicit checks `get_valid_date` makes on a parsed date, in its order:
   * month range, positive day, the 30-day months, February by the leap rule,
   * the 31-day months. For years from 1 on they accept exactly the days the
   * month table allows.
   */
  function CalendarCheck(year: int, month: int, day: int): (ok: bool)
    ensures year >= MinYear ==> (ok <==> 1 <= month <= 12 && 1 <= day <= DaysInMonth(year, month))
  {
    if month < 1 || month > 12 then false
    else if day < 1 then false
    else if (month == 4 || month == 6 || month == 9 || month == 11) && day > 30 then false
    else if month == 2 then
      var isLeap := (year % 4 == 0 && year % 100 != 0) || year % 400 == 0;
      day <= (if isLeap then 29 else 28)
    else if month == 1 || month == 3 || month == 5 || month == 7 || month == 8 || month == 10 || month == 12 then
      day <= 31
    else true
  }

  /**
   * One attempt of `get_valid_date`: strip the line, reject it when empty,
   * parse it with `strptime`, then apply the explicit checks.
   */
  function AcceptDateLine(line: string): (r: Option<CalDate>)
    ensures r.Some? ==> !Blank(line)
  {
    var text := Strip(line);
    if text == "" then None
    else
      match ParseDate(text)
      case None => None
      case Some(d) => if CalendarCheck(d.year, d.month, d.day) then Some(d) else None
  }

  /** The explicit checks never reject a date `strptime` accepted: a line is accepted exactly when its stripped text parses. */
  lemma DateChecksAddNothing(line: string)
    ensures AcceptDateLine(line) == ParseDate(Strip(line))
  {
    if Strip(line) == "" {
      assert ParseDate(Strip(line)).None?;
    }
  }

  /**
   * A prompt loop: the first input that `accept` turns into a value, or `None`
   * while no input typed so far has been accepted.
   */
  function FirstAccepted<A, T(==)>(inputs: seq<A>, accept: A -> Option<T>): (r: Option<T>)
    ensures r.None? <==> forall i | 0 <= i < |inputs| :: accept(inputs[i]).None?
    ensures r.Some? ==> exists i | 0 <= i < |inputs| ::
      accept(inputs[i]) == r && forall j | 0 <= j < i :: accept(inputs[j]).None?
  {
    if inputs == [] then None
    else if accept(inputs[0]).Some? then
      accept(inputs[0])
    else
      var rest := inputs[1..];
      var r := FirstAccepted(rest, accept);
      if r.Some? then
        var i :| 0 <= i < |rest| && accept(rest[i]) == r && forall j | 0 <= j < i :: accept(rest[j]).None?;
        assert accept(inputs[i + 1]) == r && forall j | 0 <= j < i + 1 :: accept(inputs[j]).None?;
        r
      else
        assert forall i | 1 <= i < |inputs| :: inputs[i] == rest[i - 1];
        r
  }

  /** `get_valid_date` over the lines the user types in turn. */
  function ValidDate(lines: seq<string>): Option<CalDate>
  {
    FirstAccepted(lines, AcceptDateLine)
  }

  /**
   * `get_valid_date` returns the date of the first line it accepts, and is
   * still prompting exactly when no line typed so far was accepted.
   */
  lemma ValidDateFirst(lines: seq<string>)
    ensures ValidDate(lines).None? <==> forall i | 0 <= i < |lines| :: AcceptDateLine(lines[i]).None?
    ensures ValidDate(lines).Some? ==> exists i | 0 <= i < |lines| ::
      && AcceptDateLine(lines[i]) == ValidDate(lines)
      && forall j | 0 <= j < i :: AcceptDateLine(lines[j]).None?
  {
  }

  /** One attempt of `get_valid_number` on a number already parsed: only a positive amount is returned. */
  function AcceptAmount(x: real): Option<real>
  {
    if x <= 0.0 then None else Some(x)
  }

  /**
   * `get_valid_number` over the numbers the user types in turn: the first
   * positive one. Zero and negative amounts are asked again and never returned.
   */
  function ValidNumber(inputs: seq<real>): (r: Option<real>)
    ensures r.Some? ==> r.value > 0.0 && r.value in inputs
    ensures r.None? <==> forall i | 0 <= i < |inputs| :: inputs[i] <= 0.0
  {
    var r := FirstAccepted(inputs, AcceptAmount);
    if r.Some? then
      var i :| 0 <= i < |inputs| && AcceptAmount(inputs[i]) == r;
      assert inputs[i] == r.value;
      r
    else
      r
  }

  /** The amount returned is the first positive number typed: every earlier one was ≤ 0. */
  lemma ValidNumberFirst(inputs: seq<real>)
    ensures ValidNumber(inputs).Some? ==> exists i | 0 <= i < |inputs| ::
      && inputs[i] == ValidNumber(inputs).value
      && forall j | 0 <= j < i :: inputs[j] <= 0.0
  {
    var r := FirstAccepted(inputs, AcceptAmount);
    if r.Some? {
      var i :| 0 <= i < |inputs| && AcceptAmount(inputs[i]) == r && forall j | 0 <= j < i :: AcceptAmount(inputs[j]).None?;
      assert inputs[i] == ValidNumber(inputs).value;
    }
  }

  /** The placeholder description "无" ("none"). */
  const NoDescription: string := "无"

  /** The description as stored: the stripped line, or the placeholder when that is empty. */
  function Description(line: string): (d: string)
    ensures d != [] && !IsSpace(d[0]) && !IsSpace(d[|d| - 1])
    ensures Blank(line) ==> d == NoDescription
    ensures !Blank(line) ==> d == Strip(line)
  {
    var text := Strip(line);
    if text == "" then
      PlaceholderIsNotBlank();
      NoDescription
    else text
  }

  lemma PlaceholderIsNotBlank()
    ensures |NoDescription| == 1 && !IsSpace(NoDescription[0])
  {
  }

  /** Why the add path went back to the menu without adding, or has not finished prompting. */
  datatype MenuError = AwaitingDate | EmptyCategory | UnknownCategory | AwaitingAmount

  /**
   * Menu choice 1: read a date, a category (not stripped), an amount and a
   * description, then call `add_record`. A rejected category returns to the
   * menu before the amount is asked for.
   */
  /**
   * The add path once a date has been obtained: the category checks, then
   * the amount prompt, then `add_record` with the description rule's text.
   */
  function AddObtained(a: Account, date: CalDate, categoryLine: string, amount: Option<real>, descriptionLine: string): (r: Result<Account, MenuError>)
    requires amount.Some? ==> amount.value > 0.0
    ensures r == Err(EmptyCategory) <==> categoryLine == ""
    ensures r == Err(UnknownCategory) <==> categoryLine != "" && !Recognised(categoryLine)
    ensures r.Ok? <==> Recognised(categoryLine) && amount.Some?
    ensures r != Err(AwaitingDate)
    ensures r.Ok? ==>
      && |r.value.records| == |a.records| + 1
      && r.value.records[..|a.records|] == a.records
      && r.value.records[|a.records|] == Record(date, categoryLine, amount.value, Description(descriptionLine))
    ensures Consistent(a) && r.Ok? ==> Consistent(r.value)
  {
    if categoryLine == "" then Err(EmptyCategory)
    else if !Recognised(categoryLine) then Err(UnknownCategory)
    else
      match amount
      case None => Err(AwaitingAmount)
      case Some(x) =>
        var out := AddRecord(a, date, categoryLine, x, Description(descriptionLine));
        assert out.error.None?;
        Ok(out.account)
  }

  function MenuAdd(a: Account, dateLines: seq<string>, categoryLine: string, amounts: seq<real>, descriptionLine: string): (r: Result<Account, MenuError>)
    ensures r == Err(AwaitingDate) <==> ValidDate(dateLines).None?
    ensures r == Err(EmptyCategory) <==> ValidDate(dateLines).Some? && categoryLine == ""
    ensures r == Err(UnknownCategory) <==> ValidDate(dateLines).Some? && categoryLine != "" && !Recognised(categoryLine)
    ensures r.Ok? <==> ValidDate(dateLines).Some? && Recognised(categoryLine) && ValidNumber(amounts).Some?
    ensures r.Ok? ==>
      && |r.value.records| == |a.records| + 1
      && r.value.records[..|a.records|] == a.records
      && r.value.records[|a.records|]
         == Record(ValidDate(dateLines).value, categoryLine, ValidNumber(amounts).value, Description(descriptionLine))
    ensures Consistent(a) && r.Ok? ==> Consistent(r.value)
  {
    match ValidDate(dateLines)
    case None => Err(AwaitingDate)
    case Some(date) => AddObtained(a, date, categoryLine, ValidNumber(amounts), descriptionLine)
  }
}
