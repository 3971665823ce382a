/**
  The row validator of the sales-order quality gate: the `AmazonOrderModel`
  schema, its date hook `parse_amazon_date` and its currency check.

  The schema is data (a list of field specifications) and one generic routine,
  `ValidateFields`, interprets it for a row. How pydantic turns a raw cell into
  a `str`, an `int`, a `float` or a `datetime` is not visible in the source: it
  is a parameter of the validator (`Coercion`), and the only facts assumed of it
  are stated in `KeepsNativeValues`, and only where a lemma needs them.
*/
module OrderModel {
  import opened Wrappers
  import Strptime

  // ---------------------------------------------------------------------
  // Raw rows
  // ---------------------------------------------------------------------

  /** A raw cell as pandas hands it over: text, an integer, a float, a blank cell (NaN), or a datetime. */
  datatype Value = Str(s: string) | Int(i: int) | Float(f: real) | Nan | Stamp(dt: Strptime.DateTime)

  /** One row: column header to cell. Columns that no field names are ignored. */
  type Row = map<string, Value>

  // ---------------------------------------------------------------------
  // parse_amazon_date
  // ---------------------------------------------------------------------

  /**
    The hook that runs on the raw `Date` cell before pydantic's datetime
    coercion: a string in the `%m-%d-%y` format becomes a datetime; any other
    string, and anything that is not a string, is passed through. It never fails.
  */
  function ParseAmazonDate(v: Value): (r: Value)
    ensures !v.Str? ==> r == v
    ensures r == v || r.Stamp?
  {
    match v
    case Str(s) =>
      (match Strptime.Parse(s)
       case Some(d) => Stamp(d)
       case None => v)
    case _ => v
  }

  /** A date written in any accepted style becomes that date. */
  lemma ParseAmazonDateReadsFormattedDates(d: Strptime.DateTime, st: Strptime.Style)
    requires Strptime.IsCalendarDate(d) && Strptime.InPivotWindow(d.year)
    ensures ParseAmazonDate(Str(Strptime.Format(d, st))) == Stamp(d)
  {
    Strptime.ParseFormat(d, st);
  }

  /** A string comes back unchanged exactly when it is not a date written in an accepted style. */
  lemma ParseAmazonDateFallback(s: string)
    ensures ParseAmazonDate(Str(s)) == Str(s) <==> !Strptime.DenotesDate(s)
  {
    Strptime.ParseAcceptsExactlyFormattedDates(s);
  }

  /** Applying the hook twice is applying it once. */
  lemma ParseAmazonDateIdempotent(v: Value)
    ensures ParseAmazonDate(ParseAmazonDate(v)) == ParseAmazonDate(v)
  {
  }

  // ---------------------------------------------------------------------
  // Pydantic's coercion, as a parameter
  // ---------------------------------------------------------------------

  /**
    How pydantic turns a raw value into each field type; `None` where it raises
    a validation error. Its rules for numeric text, floats with a fraction, NaN
    and date strings are not part of this model.
  */
  datatype Coercion = Coercion(
    toText: Value -> Option<string>,
    toInt: Value -> Option<int>,
    toFloat: Value -> Option<real>,
    toDateTime: Value -> Option<Strptime.DateTime>)

  /** Pydantic accepts a value that already has the field's type, unchanged. */
  ghost predicate KeepsNativeValues(c: Coercion) {
    && (forall s :: c.toText(Str(s)) == Some(s))
    && (forall i :: c.toInt(Int(i)) == Some(i))
    && (forall f :: c.toFloat(Float(f)) == Some(f))
    && (forall d :: c.toDateTime(Stamp(d)) == Some(d))
  }

  // ---------------------------------------------------------------------
  // The schema as data
  // ---------------------------------------------------------------------

  datatype Kind = TextKind | IntKind | FloatKind | DateTimeKind

  /** A value of a field after coercion. */
  datatype Typed = Text(s: string) | Integer(i: int) | Number(r: real) | Moment(dt: Strptime.DateTime)

  predicate HasKind(t: Typed, kind: Kind) {
    match kind
    case TextKind => t.Text?
    case IntKind => t.Integer?
    case FloatKind => t.Number?
    case DateTimeKind => t.Moment?
  }

  /** `min_length`, `ge`, and a check that admits one literal only. */
  datatype Constraint = MinLength(n: nat) | AtLeast(bound: int) | OnlyValue(literal: string)

  /** A validator that runs on the raw value before coercion. */
  datatype Hook = NoHook | AmazonDateHook

  datatype FieldSpec = FieldSpec(
    name: string,
    aliases: seq<string>,
    kind: Kind,
    constraints: seq<Constraint>,
    before: Hook)

  datatype ErrorKind = Missing | TypeMismatch | TooShort | BelowMinimum | NotAllowed

  datatype FieldError = FieldError(field: string, kind: ErrorKind)

  /** The validator's answer for one row: the typed values, or every field that failed. */
  datatype Verdict = Valid(values: seq<Typed>) | Invalid(errors: seq<FieldError>)

  const OrderIdAliases: seq<string> := ["Order ID", "Order_ID"]
  const QtyAliases: seq<string> := ["Qty", "qty"]
  const AmountAliases: seq<string> := ["Amount", "amount"]
  const CurrencyAliases: seq<string> := ["currency", "Currency"]
  const ShipCountryAliases: seq<string> := ["ship-country", "ship_country"]
  const DateAliases: seq<string> := ["Date", "date"]

  const OrderIdField := FieldSpec("Order_ID", OrderIdAliases, TextKind, [MinLength(1)], NoHook)
  const QtyField := FieldSpec("Qty", QtyAliases, IntKind, [AtLeast(0)], NoHook)
  const AmountField := FieldSpec("Amount", AmountAliases, FloatKind, [AtLeast(0)], NoHook)
  /** The currency check is a validator after coercion; it admits "INR" only. */
  const CurrencyField := FieldSpec("currency", CurrencyAliases, TextKind, [OnlyValue("INR")], NoHook)
  const ShipCountryField := FieldSpec("ship_country", ShipCountryAliases, TextKind, [], NoHook)
  const DateField := FieldSpec("Date", DateAliases, DateTimeKind, [], AmazonDateHook)

  /** The six required fields of `AmazonOrderModel`, in declaration order. None has a default. */
  const AmazonOrderModel: seq<FieldSpec> :=
    [OrderIdField, QtyField, AmountField, CurrencyField, ShipCountryField, DateField]

  // ---------------------------------------------------------------------
  // The generic validator
  // ---------------------------------------------------------------------

  /** The value of the first alias, in declared order, that the row has. */
  function Lookup(row: Row, aliases: seq<string>): (r: Option<Value>)
    ensures r.None? <==> forall a :: a in aliases ==> a !in row
    ensures r.Some? ==> exists a :: a in aliases && a in row && r.value == row[a]
  {
    if |aliases| == 0 then None
    else if aliases[0] in row then Some(row[aliases[0]])
    else Lookup(row, aliases[1..])
  }

  function RunHook(hook: Hook, v: Value): Value {
    match hook
    case NoHook => v
    case AmazonDateHook => ParseAmazonDate(v)
  }

  function Coerce(c: Coercion, kind: Kind, v: Value): (r: Option<Typed>)
    ensures r.Some? ==> HasKind(r.value, kind)
  {
    match kind
    case TextKind => (match c.toText(v) case Some(s) => Some(Text(s)) case None => None)
    case IntKind => (match c.toInt(v) case Some(i) => Some(Integer(i)) case None => None)
    case FloatKind => (match c.toFloat(v) case Some(f) => Some(Number(f)) case None => None)
    case DateTimeKind => (match c.toDateTime(v) case Some(d) => Some(Moment(d)) case None => None)
  }

  /** Whether a typed value meets a constraint; a constraint on another type does not apply. */
  predicate Satisfies(k: Constraint, t: Typed) {
    match k
    case MinLength(n) => t.Text? ==> |t.s| >= n
    case AtLeast(b) => (t.Integer? ==> t.i >= b) && (t.Number? ==> t.r >= b as real)
    case OnlyValue(lit) => t.Text? ==> t.s == lit
  }

  function ViolationOf(k: Constraint): ErrorKind {
    match k
    case MinLength(_) => TooShort
    case AtLeast(_) => BelowMinimum
    case OnlyValue(_) => NotAllowed
  }

  /** The kind of the first constraint, in declared order, that `t` violates. */
  function FirstViolation(cs: seq<Constraint>, t: Typed): (r: Option<ErrorKind>)
    ensures r.None? <==> forall k :: k in cs ==> Satisfies(k, t)
    ensures r.Some? ==> exists k :: k in cs && !Satisfies(k, t) && r.value == ViolationOf(k)
  {
    if |cs| == 0 then None
    else if !Satisfies(cs[0], t) then Some(ViolationOf(cs[0]))
    else FirstViolation(cs[1..], t)
  }

  /** One field: look it up by alias, run its hook, coerce it, check its constraints. */
  function ValidateField(c: Coercion, f: FieldSpec, row: Row): (r: Result<Typed, ErrorKind>)
    ensures r == Err(Missing) <==> forall a :: a in f.aliases ==> a !in row
    ensures r.Ok? ==> HasKind(r.value, f.kind) && forall k :: k in f.constraints ==> Satisfies(k, r.value)
  {
    match Lookup(row, f.aliases)
    case None => Err(Missing)
    case Some(raw) =>
      match Coerce(c, f.kind, RunHook(f.before, raw))
      case None => Err(TypeMismatch)
      case Some(t) =>
        match FirstViolation(f.constraints, t)
        case Some(e) => Err(e)
        case None => Ok(t)
  }

  /** The error a field reports for a row, if it fails. */
  function FieldFailure(c: Coercion, f: FieldSpec, row: Row): Option<FieldError> {
    match ValidateField(c, f, row)
    case Ok(_) => None
    case Err(e) => Some(FieldError(f.name, e))
  }

  /**
    Every field of the schema, each independently of the others. The row is
    valid when every field is; otherwise the verdict lists the failure of
    every field that failed, in schema order, and of no other.
  */
  function ValidateFields(c: Coercion, fields: seq<FieldSpec>, row: Row): (r: Verdict)
    ensures r.Valid? <==> forall i :: 0 <= i < |fields| ==> ValidateField(c, fields[i], row).Ok?
    ensures r.Valid? ==> |r.values| == |fields|
    ensures r.Valid? ==> forall i :: 0 <= i < |fields| ==> ValidateField(c, fields[i], row) == Ok(r.values[i])
    ensures r.Invalid? ==> r.errors != []
    ensures r.Invalid? ==> forall i :: 0 <= i < |fields| && FieldFailure(c, fields[i], row).Some? ==>
      FieldFailure(c, fields[i], row).value in r.errors
    ensures r.Invalid? ==> forall e :: e in r.errors ==>
      exists i :: 0 <= i < |fields| && FieldFailure(c, fields[i], row) == Some(e)
  {
    if |fields| == 0 then Valid([])
    else
      var rest := ValidateFields(c, fields[1..], row);
      match ValidateField(c, fields[0], row)
      case Ok(t) =>
        (match rest
         case Valid(ts) => Valid([t] + ts)
         case Invalid(es) => Invalid(es))
      case Err(e) =>
        (match rest
         case Valid(_) => Invalid([FieldError(fields[0].name, e)])
         case Invalid(es) => Invalid([FieldError(fields[0].name, e)] + es))
  }

  // ---------------------------------------------------------------------
  // The class declaration read field by field: the reference for ValidateRow
  // ---------------------------------------------------------------------

  /** The coerced value of a looked-up cell, if there is one and it coerces. */
  function Coerced<T>(raw: Option<Value>, conv: Value -> Option<T>): Option<T> {
    match raw
    case None => None
    case Some(v) => conv(v)
  }

  /**
    What `AmazonOrderModel` demands, written out field by field: an order id
    of at least one character, a quantity and an amount that are at least 0,
    the currency "INR" and nothing else, some shipping country, and a date that
    coerces once `parse_amazon_date` has run.
  */
  ghost predicate AcceptedOrder(c: Coercion, row: Row) {
    var id := Coerced(Lookup(row, OrderIdAliases), c.toText);
    var qty := Coerced(Lookup(row, QtyAliases), c.toInt);
    var amount := Coerced(Lookup(row, AmountAliases), c.toFloat);
    var currency := Coerced(Lookup(row, CurrencyAliases), c.toText);
    var country := Coerced(Lookup(row, ShipCountryAliases), c.toText);
    var date := Coerced(Lookup(row, DateAliases), v => c.toDateTime(ParseAmazonDate(v)));
    && id.Some? && |id.value| >= 1
    && qty.Some? && qty.value >= 0
    && amount.Some? && amount.value >= 0.0
    && currency == Some("INR")
    && country.Some?
    && date.Some?
  }

  lemma OrderIdFieldMatches(c: Coercion, row: Row)
    ensures ValidateField(c, OrderIdField, row).Ok? <==>
      (var id := Coerced(Lookup(row, OrderIdAliases), c.toText); id.Some? && |id.value| >= 1)
  {
  }

  lemma QtyFieldMatches(c: Coercion, row: Row)
    ensures ValidateField(c, QtyField, row).Ok? <==>
      (var qty := Coerced(Lookup(row, QtyAliases), c.toInt); qty.Some? && qty.value >= 0)
  {
  }

  lemma AmountFieldMatches(c: Coercion, row: Row)
    ensures ValidateField(c, AmountField, row).Ok? <==>
      (var amount := Coerced(Lookup(row, AmountAliases), c.toFloat); amount.Some? && amount.value >= 0.0)
  {
  }

  lemma CurrencyFieldMatches(c: Coercion, row: Row)
    ensures ValidateField(c, CurrencyField, row).Ok? <==>
      Coerced(Lookup(row, CurrencyAliases), c.toText) == Some("INR")
  {
  }

  lemma ShipCountryFieldMatches(c: Coercion, row: Row)
    ensures ValidateField(c, ShipCountryField, row).Ok? <==>
      Coerced(Lookup(row, ShipCountryAliases), c.toText).Some?
  {
  }

  lemma DateFieldMatches(c: Coercion, row: Row)
    ensures ValidateField(c, DateField, row).Ok? <==>
      Coerced(Lookup(row, DateAliases), v => c.toDateTime(ParseAmazonDate(v))).Some?
  {
  }

  /** The schema's six entries are the six declared fields. */
  lemma EveryFieldOk(c: Coercion, row: Row)
    ensures (forall i :: 0 <= i < |AmazonOrderModel| ==> ValidateField(c, AmazonOrderModel[i], row).Ok?) <==>
      && ValidateField(c, OrderIdField, row).Ok?
      && ValidateField(c, QtyField, row).Ok?
      && ValidateField(c, AmountField, row).Ok?
      && ValidateField(c, CurrencyField, row).Ok?
      && ValidateField(c, ShipCountryField, row).Ok?
      && ValidateField(c, DateField, row).Ok?
  {
    var m := AmazonOrderModel;
    assert m[0] == OrderIdField && m[1] == QtyField && m[2] == AmountField;
    assert m[3] == CurrencyField && m[4] == ShipCountryField && m[5] == DateField;
  }

  /**
    `AmazonOrderModel(**row)`: the verdict is `Invalid` exactly when the constructor raises.
    A valid row yields one value per declared field; a rejection always names at least one error.
  */
  function ValidateRow(c: Coercion, row: Row): (r: Verdict)
    ensures r.Valid? ==> |r.values| == |AmazonOrderModel|
    ensures r.Invalid? ==> r.errors != []
  {
    ValidateFields(c, AmazonOrderModel, row)
  }

  /** A row is valid exactly when it meets the declaration, field by field. */
  lemma ValidateRowMatchesDeclaration(c: Coercion, row: Row)
    ensures ValidateRow(c, row).Valid? <==> AcceptedOrder(c, row)
    ensures ValidateRow(c, row).Valid? ==> |ValidateRow(c, row).values| == |AmazonOrderModel|
  {
    OrderIdFieldMatches(c, row); QtyFieldMatches(c, row); AmountFieldMatches(c, row);
    CurrencyFieldMatches(c, row); ShipCountryFieldMatches(c, row); DateFieldMatches(c, row);
    EveryFieldOk(c, row);
  }

  // ---------------------------------------------------------------------
  // Aliases
  // ---------------------------------------------------------------------

  /** Alias priority: the first declared alias the row has supplies the value, whatever later aliases hold. */
  lemma {:induction false} LookupTakesFirstPresent(row: Row, aliases: seq<string>, i: nat)
    requires i < |aliases| && aliases[i] in row
    requires forall j :: 0 <= j < i ==> aliases[j] !in row
    ensures Lookup(row, aliases) == Some(row[aliases[i]])
  {
    if i > 0 {
      assert aliases[0] !in row;
      LookupTakesFirstPresent(row, aliases[1..], i - 1);
    }
  }

  /** "Order ID" wins over "Order_ID", and "ship-country" over "ship_country". */
  lemma AliasPriorityExamples(row: Row)
    requires "Order ID" in row && "ship-country" in row
    ensures Lookup(row, OrderIdAliases) == Some(row["Order ID"])
    ensures Lookup(row, ShipCountryAliases) == Some(row["ship-country"])
  {
    LookupTakesFirstPresent(row, OrderIdAliases, 0);
    LookupTakesFirstPresent(row, ShipCountryAliases, 0);
  }

  /** Two rows that agree on a field's aliases give that field the same cell. */
  lemma {:induction false} LookupSeesOnlyAliases(r1: Row, r2: Row, aliases: seq<string>)
    requires forall a :: a in aliases ==> (a in r1 <==> a in r2)
    requires forall a :: a in aliases && a in r1 ==> r1[a] == r2[a]
    ensures Lookup(r1, aliases) == Lookup(r2, aliases)
  {
    if |aliases| > 0 {
      assert aliases[0] in aliases;
      LookupSeesOnlyAliases(r1, r2, aliases[1..]);
    }
  }

  lemma ValidateFieldSeesOnlyLookup(c: Coercion, f: FieldSpec, r1: Row, r2: Row)
    requires Lookup(r1, f.aliases) == Lookup(r2, f.aliases)
    ensures ValidateField(c, f, r1) == ValidateField(c, f, r2)
  {
  }

  /** Row independence of fields: the verdict depends on a row only through what each field looks up. */
  lemma {:induction false} ValidateFieldsSeesOnlyLookups(c: Coercion, fields: seq<FieldSpec>, r1: Row, r2: Row)
    requires forall i :: 0 <= i < |fields| ==> Lookup(r1, fields[i].aliases) == Lookup(r2, fields[i].aliases)
    ensures ValidateFields(c, fields, r1) == ValidateFields(c, fields, r2)
  {
    if |fields| > 0 {
      ValidateFieldSeesOnlyLookup(c, fields[0], r1, r2);
      ValidateFieldsSeesOnlyLookups(c, fields[1..], r1, r2);
      assert ValidateFields(c, fields[1..], r1) == ValidateFields(c, fields[1..], r2);
    }
  }

  /** No column header is an alias of two fields. */
  predicate AliasesDisjoint(fields: seq<FieldSpec>) {
    forall i, j, a :: 0 <= i < j < |fields| && a in fields[i].aliases ==> a !in fields[j].aliases
  }

  lemma SchemaEntries()
    ensures |AmazonOrderModel| == 6
    ensures AmazonOrderModel[0] == OrderIdField && AmazonOrderModel[1] == QtyField
    ensures AmazonOrderModel[2] == AmountField && AmazonOrderModel[3] == CurrencyField
    ensures AmazonOrderModel[4] == ShipCountryField && AmazonOrderModel[5] == DateField
  {
  }

  lemma AmazonOrderModelAliasesDisjoint()
    ensures AliasesDisjoint(AmazonOrderModel)
  {
    SchemaEntries();
  }

  /**
    Re-keying a field's cell from one of its aliases to another, when the row
    has no other alias of that field, leaves the verdict unchanged.
  */
  lemma RekeyKeepsVerdict(c: Coercion, row: Row, i: nat, a: string, b: string)
    requires i < |AmazonOrderModel|
    requires a in AmazonOrderModel[i].aliases && b in AmazonOrderModel[i].aliases
    requires a in row
    requires forall x :: x in AmazonOrderModel[i].aliases && x in row ==> x == a
    ensures ValidateRow(c, (row - {a})[b := row[a]]) == ValidateRow(c, row)
  {
    var row' := (row - {a})[b := row[a]];
    var fields := AmazonOrderModel;
    AmazonOrderModelAliasesDisjoint();
    forall j | 0 <= j < |fields|
      ensures Lookup(row', fields[j].aliases) == Lookup(row, fields[j].aliases)
    {
      if j == i {
        var ka :| 0 <= ka < |fields[i].aliases| && fields[i].aliases[ka] == a;
        var kb :| 0 <= kb < |fields[i].aliases| && fields[i].aliases[kb] == b;
        LookupTakesFirstPresent(row, fields[i].aliases, ka);
        LookupTakesFirstPresent(row', fields[i].aliases, kb);
      } else {
        assert a !in fields[j].aliases && b !in fields[j].aliases;
        LookupSeesOnlyAliases(row', row, fields[j].aliases);
      }
    }
    ValidateFieldsSeesOnlyLookups(c, fields, row', row);
  }

  /** A column that is no field's alias is ignored. */
  lemma ExtraColumnIgnored(c: Coercion, row: Row, k: string, v: Value)
    requires forall i :: 0 <= i < |AmazonOrderModel| ==> k !in AmazonOrderModel[i].aliases
    ensures ValidateRow(c, row[k := v]) == ValidateRow(c, row)
  {
    var fields := AmazonOrderModel;
    forall j | 0 <= j < |fields|
      ensures Lookup(row[k := v], fields[j].aliases) == Lookup(row, fields[j].aliases)
    {
      LookupSeesOnlyAliases(row[k := v], row, fields[j].aliases);
    }
    ValidateFieldsSeesOnlyLookups(c, fields, row[k := v], row);
  }

  // ---------------------------------------------------------------------
  // Field by field
  // ---------------------------------------------------------------------

  /** A field that fails makes the row invalid, and its failure is in the verdict. */
  lemma FailureReported(c: Coercion, row: Row, i: nat)
    requires i < |AmazonOrderModel| && ValidateField(c, AmazonOrderModel[i], row).Err?
    ensures ValidateRow(c, row).Invalid?
    ensures FieldError(AmazonOrderModel[i].name, ValidateField(c, AmazonOrderModel[i], row).error)
      in ValidateRow(c, row).errors
  {
    assert FieldFailure(c, AmazonOrderModel[i], row).Some?;
  }

  /** Every field is required: a row with none of a field's aliases is invalid, with `Missing` for it. */
  lemma MissingFieldRejected(c: Coercion, row: Row, i: nat)
    requires i < |AmazonOrderModel|
    requires forall a :: a in AmazonOrderModel[i].aliases ==> a !in row
    ensures ValidateRow(c, row).Invalid?
    ensures FieldError(AmazonOrderModel[i].name, Missing) in ValidateRow(c, row).errors
  {
    FailureReported(c, row, i);
  }

  /** `min_length=1`: an order id is accepted exactly when it is not empty. */
  lemma OrderIdMinLength(c: Coercion, row: Row, s: string)
    requires KeepsNativeValues(c)
    requires Lookup(row, OrderIdAliases) == Some(Str(s))
    ensures ValidateField(c, OrderIdField, row) == if s == "" then Err(TooShort) else Ok(Text(s))
    ensures s == "" ==> ValidateRow(c, row).Invalid? && FieldError("Order_ID", TooShort) in ValidateRow(c, row).errors
  {
    assert c.toText(Str(s)) == Some(s);
    if s == "" {
      SchemaEntries();
      FailureReported(c, row, 0);
    }
  }

  /** `ge=0` on `Qty`: a quantity is accepted exactly when it is not negative; 0 is accepted. */
  lemma QtyAtLeastZero(c: Coercion, row: Row, n: int)
    requires KeepsNativeValues(c)
    requires Lookup(row, QtyAliases) == Some(Int(n))
    ensures ValidateField(c, QtyField, row) == if n < 0 then Err(BelowMinimum) else Ok(Integer(n))
    ensures n < 0 ==> ValidateRow(c, row).Invalid? && FieldError("Qty", BelowMinimum) in ValidateRow(c, row).errors
  {
    assert c.toInt(Int(n)) == Some(n);
    if n < 0 {
      SchemaEntries();
      FailureReported(c, row, 1);
    }
  }

  /** `ge=0` on `Amount`: an amount is accepted exactly when it is not negative; 0.0 is accepted. */
  lemma AmountAtLeastZero(c: Coercion, row: Row, x: real)
    requires KeepsNativeValues(c)
    requires Lookup(row, AmountAliases) == Some(Float(x))
    ensures ValidateField(c, AmountField, row) == if x < 0.0 then Err(BelowMinimum) else Ok(Number(x))
    ensures x < 0.0 ==> ValidateRow(c, row).Invalid? && FieldError("Amount", BelowMinimum) in ValidateRow(c, row).errors
  {
    assert c.toFloat(Float(x)) == Some(x);
    if x < 0.0 {
      SchemaEntries();
      FailureReported(c, row, 2);
    }
  }

  /** `check_currency`: a currency is accepted exactly when it is "INR", letter for letter. */
  lemma CurrencyOnlyInr(c: Coercion, row: Row, s: string)
    requires KeepsNativeValues(c)
    requires Lookup(row, CurrencyAliases) == Some(Str(s))
    ensures ValidateField(c, CurrencyField, row) == if s == "INR" then Ok(Text(s)) else Err(NotAllowed)
    ensures s != "INR" ==> ValidateRow(c, row).Invalid? && FieldError("currency", NotAllowed) in ValidateRow(c, row).errors
  {
    assert c.toText(Str(s)) == Some(s);
    if s != "INR" {
      SchemaEntries();
      FailureReported(c, row, 3);
    }
  }

  /** Whatever pydantic makes of the currency cell, a valid row's currency is "INR". */
  lemma ValidRowIsInInr(c: Coercion, row: Row)
    requires ValidateRow(c, row).Valid?
    ensures Lookup(row, CurrencyAliases).Some?
    ensures c.toText(Lookup(row, CurrencyAliases).value) == Some("INR")
  {
    ValidateRowMatchesDeclaration(c, row);
  }

  /** A date cell in the `%m-%d-%y` format is accepted as that date. */
  lemma DateParsedByHook(c: Coercion, row: Row, s: string, d: Strptime.DateTime)
    requires KeepsNativeValues(c)
    requires Lookup(row, DateAliases) == Some(Str(s)) && Strptime.Parse(s) == Some(d)
    ensures ValidateField(c, DateField, row) == Ok(Moment(d))
  {
    assert c.toDateTime(Stamp(d)) == Some(d);
  }

  /**
    A date cell that the hook cannot read is not refused by the hook: the
    field then stands or falls with pydantic's own coercion of the raw text.
  */
  lemma DateFallbackDefersToCoercion(c: Coercion, row: Row, s: string)
    requires Lookup(row, DateAliases) == Some(Str(s)) && Strptime.Parse(s).None?
    ensures ValidateField(c, DateField, row) ==
      match c.toDateTime(Str(s)) case Some(d) => Ok(Moment(d)) case None => Err(TypeMismatch)
  {
  }

  // ---------------------------------------------------------------------
  // Whole rows
  // ---------------------------------------------------------------------

  const ExampleRow: Row := map[
    "Order ID" := Str("405-8078784-5731545"), "Date" := Str("04-30-22"), "Qty" := Int(0),
    "currency" := Str("INR"), "Amount" := Float(0.0), "ship-country" := Str("IN")]

  lemma ExampleRowTextFieldsOk(c: Coercion)
    requires KeepsNativeValues(c)
    ensures ValidateField(c, OrderIdField, ExampleRow).Ok?
    ensures ValidateField(c, CurrencyField, ExampleRow).Ok?
    ensures ValidateField(c, ShipCountryField, ExampleRow).Ok?
  {
    LookupTakesFirstPresent(ExampleRow, OrderIdAliases, 0);
    OrderIdMinLength(c, ExampleRow, "405-8078784-5731545");
    LookupTakesFirstPresent(ExampleRow, CurrencyAliases, 0);
    CurrencyOnlyInr(c, ExampleRow, "INR");
    LookupTakesFirstPresent(ExampleRow, ShipCountryAliases, 0);
    assert c.toText(Str("IN")) == Some("IN");
  }

  lemma ExampleRowOtherFieldsOk(c: Coercion)
    requires KeepsNativeValues(c)
    ensures ValidateField(c, QtyField, ExampleRow).Ok?
    ensures ValidateField(c, AmountField, ExampleRow).Ok?
  {
    LookupTakesFirstPresent(ExampleRow, QtyAliases, 0);
    QtyAtLeastZero(c, ExampleRow, 0);
    LookupTakesFirstPresent(ExampleRow, AmountAliases, 0);
    AmountAtLeastZero(c, ExampleRow, 0.0);
  }

  lemma ExampleRowDateOk(c: Coercion)
    requires KeepsNativeValues(c)
    ensures ValidateField(c, DateField, ExampleRow).Ok?
  {
    var d := Strptime.DateTime(2022, 4, 30);
    Strptime.ParseFormat(d, Strptime.Canonical);
    assert Strptime.Format(d, Strptime.Canonical) == "04-30-22";
    LookupTakesFirstPresent(ExampleRow, DateAliases, 0);
    DateParsedByHook(c, ExampleRow, "04-30-22", d);
  }

  /** A row like the export's: every field present and in range, with a quantity and an amount of zero. */
  lemma ExampleRowValid(c: Coercion)
    requires KeepsNativeValues(c)
    ensures ValidateRow(c, ExampleRow).Valid?
  {
    ExampleRowTextFieldsOk(c);
    ExampleRowOtherFieldsOk(c);
    ExampleRowDateOk(c);
    EveryFieldOk(c, ExampleRow);
    assert ValidateFields(c, AmazonOrderModel, ExampleRow).Valid?;
  }

  /** Two independent faults in one row are both reported, not just the first. */
  lemma EveryFaultReported(c: Coercion, row: Row)
    requires KeepsNativeValues(c)
    requires Lookup(row, OrderIdAliases) == Some(Str(""))
    requires Lookup(row, CurrencyAliases) == Some(Str("USD"))
    ensures ValidateRow(c, row).Invalid?
    ensures FieldError("Order_ID", TooShort) in ValidateRow(c, row).errors
    ensures FieldError("currency", NotAllowed) in ValidateRow(c, row).errors
  {
    OrderIdMinLength(c, row, "");
    CurrencyOnlyInr(c, row, "USD");
  }
}
