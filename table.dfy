/** The uploaded order table and the four column updates that normalise it in place,
    one loop per column assignment. */
module Table {
  import opened Wrappers
  import opened Calendar
  import opened Columns

  /** One row of the uploaded sheet, every cell already read as text. */
  datatype RawRow = RawRow(phone: string, customerName: string, deliveryDate: string)

  /** The delivery-date column holds text until it is parsed, and timestamps after. */
  datatype DateCell = Text(text: string) | Stamp(value: DateValue)

  /** One row of the working table. `orderCode` is the column that the order-code step
      adds; before that step it is empty and nothing reads it. */
  datatype Record = Record(phone: string, customerName: string, delivery: DateCell, orderCode: string)

  /** A row as it stands straight after the upload is read. */
  function Loaded(row: RawRow): (r: Record)
    ensures r.delivery.Text?
  {
    Record(row.phone, row.customerName, Text(row.deliveryDate), "")
  }

  /** The date a date text parses to once cut to its key, `None` if it does not parse. */
  function ParsedDate(text: string): Option<DateValue> {
    ParseDeliveryDate(DateKey(text))
  }

  /** The masked update: only the rows whose phone starts with `"2"` are rewritten, and
      only in their phone column. */
  method TrimPhones(a: array<Record>)
    modifies a
    ensures forall i :: 0 <= i < a.Length ==> a[i] == old(a[i]).(phone := NormalisePhone(old(a[i]).phone))
    ensures forall i :: 0 <= i < a.Length && !StartsWith(old(a[i]).phone, "2") ==> a[i] == old(a[i])
  {
    for i := 0 to a.Length
      invariant forall k :: 0 <= k < i ==> a[k] == old(a[k]).(phone := NormalisePhone(old(a[k]).phone))
      invariant forall k :: i <= k < a.Length ==> a[k] == old(a[k])
    {
      var p := a[i].phone;
      StartsWithTwo(p);
      if |p| > 0 && p[0] == '2' {
        a[i] := a[i].(phone := if |p| < 2 then [] else p[2..]);
      }
    }
  }

  /** The order-code column: `"20"` in front of each row's current phone. */
  method AssignOrderCodes(a: array<Record>)
    modifies a
    ensures forall i :: 0 <= i < a.Length ==> a[i] == old(a[i]).(orderCode := "20" + old(a[i]).phone)
  {
    for i := 0 to a.Length
      invariant forall k :: 0 <= k < i ==> a[k] == old(a[k]).(orderCode := "20" + old(a[k]).phone)
      invariant forall k :: i <= k < a.Length ==> a[k] == old(a[k])
    {
      a[i] := a[i].(orderCode := "20" + a[i].phone);
    }
  }

  /** The name column: each name cut at its first space. */
  method CutNames(a: array<Record>)
    modifies a
    ensures forall i :: 0 <= i < a.Length ==> a[i] == old(a[i]).(customerName := FirstName(old(a[i]).customerName))
  {
    for i := 0 to a.Length
      invariant forall k :: 0 <= k < i ==> a[k] == old(a[k]).(customerName := FirstName(old(a[k]).customerName))
      invariant forall k :: i <= k < a.Length ==> a[k] == old(a[k])
    {
      a[i] := a[i].(customerName := FirstName(a[i].customerName));
    }
  }

  /** Cuts every date text of the table to its key and parses it, changing nothing: the
      first row that does not parse, or else the parsed values in row order. */
  method ParseColumn(a: array<Record>) returns (bad: Option<nat>, parsed: seq<DateValue>)
    requires forall i :: 0 <= i < a.Length ==> a[i].delivery.Text?
    ensures bad.Some? ==> bad.value < a.Length && ParsedDate(a[bad.value].delivery.text).None?
    ensures bad.Some? ==> forall j :: 0 <= j < bad.value ==> ParsedDate(a[j].delivery.text).Some?
    ensures bad.None? ==> |parsed| == a.Length
    ensures bad.None? ==> forall i :: 0 <= i < a.Length ==> ParsedDate(a[i].delivery.text) == Some(parsed[i])
  {
    parsed := [];
    var i := 0;
    while i < a.Length
      invariant 0 <= i <= a.Length && |parsed| == i
      invariant forall k :: 0 <= k < i ==> ParsedDate(a[k].delivery.text) == Some(parsed[k])
    {
      var d := ParsedDate(a[i].delivery.text);
      if d.None? {
        return Some(i), parsed;
      }
      parsed := parsed + [d.value];
      i := i + 1;
    }
    return None, parsed;
  }

  /** Writes the parsed values into the date column, nothing else changing. */
  method StampDates(a: array<Record>, parsed: seq<DateValue>)
    requires |parsed| == a.Length
    modifies a
    ensures forall i :: 0 <= i < a.Length ==> a[i] == old(a[i]).(delivery := Stamp(parsed[i]))
  {
    for i := 0 to a.Length
      invariant forall k :: 0 <= k < i ==> a[k] == old(a[k]).(delivery := Stamp(parsed[k]))
      invariant forall k :: i <= k < a.Length ==> a[k] == old(a[k])
    {
      a[i] := a[i].(delivery := Stamp(parsed[i]));
    }
  }

  /** The date column: every text is cut to its key and parsed into a new column, which
      replaces the old one only if every row parsed. Otherwise the table is left as it
      was and the first row that failed is returned. */
  method ParseDates(a: array<Record>) returns (bad: Option<nat>)
    requires forall i :: 0 <= i < a.Length ==> a[i].delivery.Text?
    modifies a
    ensures bad.Some? ==> bad.value < a.Length && ParsedDate(old(a[bad.value]).delivery.text).None?
    ensures bad.Some? ==> forall j :: 0 <= j < bad.value ==> ParsedDate(old(a[j]).delivery.text).Some?
    ensures bad.Some? ==> a[..] == old(a[..])
    ensures bad.None? ==> forall i :: 0 <= i < a.Length ==>
      ParsedDate(old(a[i]).delivery.text).Some?
      && a[i] == old(a[i]).(delivery := Stamp(ParsedDate(old(a[i]).delivery.text).value))
  {
    var parsed;
    bad, parsed := ParseColumn(a);
    if bad.None? {
      StampDates(a, parsed);
    }
  }
}
