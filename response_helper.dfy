/**
 * src/utils/response.helper.js: the pagination arithmetic and the
 * 12-hour to 24-hour time conversion. The response writers only format
 * HTTP replies and `formatDate` is an opaque normaliser handed to the
 * handlers as a parameter.
 */
module ResponseHelper {
  import opened Wrappers
  import opened Text

  // ---------------------------------------------------------------------
  // paginate
  // ---------------------------------------------------------------------

  /** The window `paginate` returns; a `None` component is NaN. */
  datatype Page = Page(limit: Option<int>, offset: Option<int>)

  /**
   * `paginate(page = 1, limit = 10)`: both arguments go through `parseInt`
   * (an absent argument takes its default), and the offset is NaN when
   * either is NaN.
   */
  function Paginate(page: Option<string>, limit: Option<string>): Page
  {
    var p := ParseInt(page.GetOr("1"));
    var l := ParseInt(limit.GetOr("10"));
    Page(l, if p.Some? && l.Some? then Some(PageOffset(p.value, l.value)) else None)
  }

  /** First row of page `page` when pages hold `limit` rows. */
  function PageOffset(page: int, limit: int): int {
    (page - 1) * limit
  }

  /**
   * Arguments that parse to numbers give the parsed limit and the offset
   * (page - 1) * limit; a page or limit that parses to NaN gives NaN.
   */
  lemma PaginateParsed(page: string, limit: string)
    ensures ParseInt(page).Some? && ParseInt(limit).Some? ==>
              (Paginate(Some(page), Some(limit))
               == Page(ParseInt(limit), Some((ParseInt(page).value - 1) * ParseInt(limit).value)))
    ensures ParseInt(page) == None || ParseInt(limit) == None ==>
              Paginate(Some(page), Some(limit)).offset == None
    ensures Paginate(Some(page), Some(limit)).limit == ParseInt(limit)
  {
  }

  /** The rendering of any integer is read back as that integer. */
  lemma PaginateNumbers(page: int, limit: int)
    ensures Paginate(Some(IntText(page)), Some(IntText(limit)))
         == Page(Some(limit), Some((page - 1) * limit))
  {
    ParseIntText(page);
    ParseIntText(limit);
  }

  /** The defaults give the first ten rows. */
  lemma PaginateDefaults()
    ensures Paginate(None, None) == Page(Some(10), Some(0))
  {
    ParseIntText(1);
    ParseIntText(10);
    assert IntText(1) == "1";
    assert IntText(10) == "10";
  }

  /** Page 1 starts at row 0, and page 0 is not clamped: it starts at -limit. */
  lemma PaginateEnds(limit: int)
    ensures PageOffset(1, limit) == 0
    ensures PageOffset(0, limit) == -limit
  {
  }

  /** Consecutive pages are adjacent windows of `limit` rows. */
  lemma PaginateAdjacent(page: int, limit: int)
    ensures PageOffset(page + 1, limit) == PageOffset(page, limit) + limit
  {
  }

  /**
   * With a positive limit the pages 1, 2, ... tile the rows: row `i` lies in
   * the window of exactly one page, page `i / limit + 1`.
   */
  lemma PageOfRow(i: nat, limit: int)
    requires limit > 0
    ensures PageOffset(i / limit + 1, limit) <= i < PageOffset(i / limit + 1, limit) + limit
    ensures forall page: int :: page >= 1 && PageOffset(page, limit) <= i < PageOffset(page, limit) + limit
              ==> page == i / limit + 1
  {
    var q := i / limit;
    assert i == q * limit + i % limit;
    assert (q + 1 - 1) * limit == q * limit;
    forall page: int | page >= 1 && PageOffset(page, limit) <= i < PageOffset(page, limit) + limit
      ensures page == q + 1
    {
      var k := page - 1;
      if k < q {
        MulMonotone(k + 1, q, limit);
      } else if k > q {
        assert (q + 1) * limit == q * limit + limit;
        MulMonotone(q + 1, k, limit);
      }
    }
  }

  lemma MulMonotone(a: int, b: int, c: int)
    requires a <= b && c > 0
    ensures a * c <= b * c
  {
  }

  // ---------------------------------------------------------------------
  // formatTime
  // ---------------------------------------------------------------------

  datatype Meridiem = AM | PM {
    function Marker(): string {
      match this
      case AM => "AM"
      case PM => "PM"
    }
  }

  /**
   * The two adjustments of formatTime: an hour below 12 gains 12 after "PM",
   * hour 12 becomes 0 after "AM". NaN (`None`) stays NaN.
   */
  function ConvertHour(hours: Option<int>, modifier: Option<string>): Option<int>
  {
    match hours
    case None => None
    case Some(h) =>
      var afterPm := if modifier == Some("PM") && h < 12 then h + 12 else h;
      Some(if modifier == Some("AM") && afterPm == 12 then 0 else afterPm)
  }

  /** `hours.toString()` of a number that may be NaN. */
  function NumberText(n: Option<int>): string {
    match n
    case None => "NaN"
    case Some(v) => IntText(v)
  }

  /**
   * `formatTime(time)`: absent or empty input gives null; input with an
   * "AM" or "PM" anywhere is rebuilt from its first space-separated token
   * (hours before the first ':', minutes after it) and its second token
   * (the modifier); any other input is returned as it is.
   */
  function FormatTime(time: Option<string>): (r: Option<string>)
    ensures r == None <==> time == None || time == Some("")
    ensures r != None && !Contains(time.value, "AM") && !Contains(time.value, "PM") ==> r == time
  {
    if time == None || time == Some("") then None
    else
      var t := time.value;
      if Contains(t, "AM") || Contains(t, "PM") then
        var parts := Split(t, ' ');
        var modifier := if |parts| > 1 then Some(parts[1]) else None;
        var hm := Split(parts[0], ':');
        var minutes := if |hm| > 1 then hm[1] else "undefined";
        var hours := ConvertHour(ParseInt(hm[0]), modifier);
        Some(PadStart(NumberText(hours), 2, '0') + ":" + minutes + ":00")
      else
        Some(t)
  }

  /** The 24-hour clock hour of hour `h` on the 12-hour clock. */
  function Hour24(h: int, m: Meridiem): int {
    ConvertHour(Some(h), Some(m.Marker())).value
  }

  /** The 12-hour reading of a 24-hour clock hour: the inverse of Hour24. */
  function Hour12(k: int): (int, Meridiem) {
    if k == 0 then (12, AM)
    else if k < 12 then (k, AM)
    else if k == 12 then (12, PM)
    else (k - 12, PM)
  }

  /** Hour24 maps {1..12} x {AM, PM} into 0..23, and Hour12 undoes it. */
  lemma Hour24Injective(h: int, m: Meridiem)
    requires 1 <= h <= 12
    ensures 0 <= Hour24(h, m) < 24
    ensures Hour12(Hour24(h, m)) == (h, m)
  {
  }

  /** Every hour 0..23 is Hour24 of exactly the reading Hour12 gives. */
  lemma Hour24Onto(k: int)
    requires 0 <= k < 24
    ensures 1 <= Hour12(k).0 <= 12
    ensures Hour24(Hour12(k).0, Hour12(k).1) == k
  {
  }

  /** The 12 AM, 12 PM and other-hour rules of formatTime. */
  lemma Hour24Cases(h: int)
    requires 1 <= h <= 12
    ensures Hour24(h, PM) == (if h == 12 then 12 else h + 12)
    ensures Hour24(h, AM) == (if h == 12 then 0 else h)
  {
  }

  /** formatTime on an input whose space and colon pieces are known. */
  lemma FormatTimeOfPieces(t: string, hs: string, mm: string, marker: string)
    requires t != [] && (Contains(t, "AM") || Contains(t, "PM"))
    requires Split(t, ' ') == [hs + ":" + mm, marker]
    requires Split(hs + ":" + mm, ':') == [hs, mm]
    ensures FormatTime(Some(t))
         == Some(PadStart(NumberText(ConvertHour(ParseInt(hs), Some(marker))), 2, '0') + ":" + mm + ":00")
  {
  }

  /** A zero-padded hour 0..23 is two digits that parse back to the hour. */
  lemma PaddedHour(k: nat)
    requires k < 24
    ensures var hh := PadStart(Decimal(k), 2, '0');
            |hh| == 2 && AllDigits(hh) && ParseInt(hh) == Some(k)
  {
    ParsePadded(k, 2);
    ShortDecimal(k);
    PadDigits(Decimal(k), 2);
  }

  lemma ShortDecimal(k: nat)
    requires k < 100
    ensures |Decimal(k)| <= 2
  {
    if k >= 10 {
      assert Decimal(k) == Decimal(k / 10) + [DigitChar(k % 10)];
    }
  }

  /** Zero-padding a digit string leaves a digit string. */
  lemma PadDigits(d: string, width: nat)
    requires AllDigits(d)
    ensures AllDigits(PadStart(d, width, '0'))
  {
    var hh := PadStart(d, width, '0');
    forall i | 0 <= i < |hh| ensures IsDigit(hh[i]) {
      if i >= |hh| - |d| {
        assert hh[i] == hh[|hh| - |d|..][i - (|hh| - |d|)];
      }
    }
  }

  /**
   * A well-formed "H:MM AM" or "H:MM PM" (hours in digits with value 1..12,
   * minutes free of spaces and colons) becomes the two-digit 24-hour clock
   * hour, the minutes as written and ":00".
   */
  lemma FormatTimeWellFormed(hs: string, mm: string, m: Meridiem)
    requires |hs| >= 1 && AllDigits(hs) && 1 <= RadixValue(hs, 10) <= 12
    requires ' ' !in mm && ':' !in mm
    ensures var hh := PadStart(Decimal(Hour24(RadixValue(hs, 10), m)), 2, '0');
            && FormatTime(Some(hs + ":" + mm + " " + m.Marker())) == Some(hh + ":" + mm + ":00")
            && |hh| == 2 && AllDigits(hh)
            && ParseInt(hh) == Some(Hour24(RadixValue(hs, 10), m))
  {
    var h := RadixValue(hs, 10);
    var a := hs + ":" + mm;
    var t := a + " " + m.Marker();
    assert hs + ":" + mm + " " + m.Marker() == t;
    ContainsSuffix(a + " ", m.Marker());
    assert ' ' !in a by {
      assert forall i :: 0 <= i < |hs| ==> hs[i] != ' ';
    }
    SplitAtFirst(a, ' ', m.Marker());
    SplitNoSeparator(m.Marker(), ' ');
    assert a + [' '] + m.Marker() == t;
    assert ':' !in hs by {
      assert forall i :: 0 <= i < |hs| ==> hs[i] != ':';
    }
    SplitAtFirst(hs, ':', mm);
    SplitNoSeparator(mm, ':');
    assert hs + [':'] + mm == a;
    FormatTimeOfPieces(t, hs, mm, m.Marker());
    ParseDigitString(hs);
    Hour24Injective(h, m);
    var k := Hour24(h, m);
    assert NumberText(ConvertHour(ParseInt(hs), Some(m.Marker()))) == Decimal(k);
    PaddedHour(k);
  }

  /**
   * The marker is looked for anywhere but honoured only as a second token:
   * "9:30PM" keeps its hour and carries the marker into the minutes,
   * giving "09:30PM:00".
   */
  lemma FormatTimeGluedMarker(hs: string, mm: string, m: Meridiem)
    requires |hs| >= 1 && AllDigits(hs)
    requires ' ' !in mm && ':' !in mm
    ensures FormatTime(Some(hs + ":" + mm + m.Marker()))
         == Some(PadStart(Decimal(RadixValue(hs, 10)), 2, '0') + ":" + mm + m.Marker() + ":00")
  {
    var marker := m.Marker();
    MarkerTail(mm, m);
    AppendAssoc(hs + ":", mm, marker);
    FormatTimeHourAndRest(hs, mm + marker);
    ParseDigitString(hs);
    var hh := PadStart(Decimal(RadixValue(hs, 10)), 2, '0');
    assert PadStart(NumberText(ParseInt(hs)), 2, '0') == hh;
    ConcatAssoc(hh + ":", mm, marker, ":00");
  }

  /** Minutes with a marker glued on form one token holding the marker. */
  lemma MarkerTail(mm: string, m: Meridiem)
    requires ' ' !in mm && ':' !in mm
    ensures var tail := mm + m.Marker();
      && ' ' !in tail && ':' !in tail && (Contains(tail, "AM") || Contains(tail, "PM"))
  {
    var marker := m.Marker();
    ContainsSuffix(mm, marker);
    assert marker == "AM" || marker == "PM";
    assert ' ' !in marker && ':' !in marker;
  }

  /** A one-token input "hours:rest" with a marker in the rest. */
  lemma FormatTimeHourAndRest(hs: string, tail: string)
    requires |hs| >= 1 && AllDigits(hs)
    requires ' ' !in tail && ':' !in tail
    requires Contains(tail, "AM") || Contains(tail, "PM")
    ensures FormatTime(Some(hs + ":" + tail))
         == Some(PadStart(NumberText(ParseInt(hs)), 2, '0') + ":" + tail + ":00")
  {
    var t := hs + ":" + tail;
    if Contains(tail, "AM") { ContainsMonotone(hs + ":", tail, "AM"); }
    else { ContainsMonotone(hs + ":", tail, "PM"); }
    assert ' ' !in t by {
      assert forall i :: 0 <= i < |hs| ==> hs[i] != ' ';
    }
    SplitNoSeparator(t, ' ');
    assert ':' !in hs by {
      assert forall i :: 0 <= i < |hs| ==> hs[i] != ':';
    }
    SplitAtFirst(hs, ':', tail);
    assert hs + [':'] + tail == t;
    SplitNoSeparator(tail, ':');
    FormatTimeOneToken(t, hs, tail);
  }

  lemma ConcatAssoc(a: string, b: string, c: string, d: string)
    ensures a + (b + c) + d == a + b + c + d
  {
  }

  /** formatTime on a one-token input: no modifier, so the hour is kept. */
  lemma FormatTimeOneToken(t: string, hs: string, mm: string)
    requires t != [] && (Contains(t, "AM") || Contains(t, "PM"))
    requires Split(t, ' ') == [t]
    requires Split(t, ':') == [hs, mm]
    ensures FormatTime(Some(t)) == Some(PadStart(NumberText(ParseInt(hs)), 2, '0') + ":" + mm + ":00")
  {
    var parts := Split(t, ' ');
    assert parts[0] == t && |parts| == 1;
    var hm := Split(parts[0], ':');
    assert hm == [hs, mm];
    assert ConvertHour(ParseInt(hs), None) == ParseInt(hs);
  }
}
