/**
 * Building the bulk-send request (`createEmailRequest`): one recipient per
 * CSV row, addressed by a fixed priority list of column names, and one
 * shared parameter object taken from the first row.
 */
module Email {
  import opened Wrappers
  import opened Seqs
  import opened Records
  import opened Types

  /** `Number.MAX_SAFE_INTEGER`, 2^53 - 1. */
  const MaxSafeInteger: int := 0x1F_FFFF_FFFF_FFFF

  /**
   * The integers a JavaScript number holds exactly. All of them lie below
   * 10^21, so `toString` prints them as plain decimal digits.
   */
  type SafeInteger = n: int | -MaxSafeInteger <= n <= MaxSafeInteger

  /**
   * A parsed CSV cell, `string | number`. Numbers are held as safe
   * integers; fractional, infinite and NaN values, and integers beyond
   * `Number.MAX_SAFE_INTEGER`, are not part of this model.
   */
  datatype Cell = Str(s: string) | Num(n: SafeInteger)

  /** A CSV row: column name to cell. */
  type Row = Record<Cell>

  /** JavaScript truthiness of a cell: `""` and `0` are falsy. */
  predicate Truthy(c: Cell) {
    match c
    case Str(s) => s != ""
    case Num(n) => n != 0
  }

  /** The character of decimal digit `d`. */
  function DigitChar(d: nat): (c: char)
    requires d < 10
    ensures '0' <= c <= '9'
    ensures (c - '0') as nat == d
  {
    ('0' as int + d) as char
  }

  /** The value a string of decimal digits denotes. */
  function DigitsValue(s: string): nat
    requires forall k :: 0 <= k < |s| ==> '0' <= s[k] <= '9'
  {
    if |s| == 0 then 0 else 10 * DigitsValue(s[..|s| - 1]) + (s[|s| - 1] - '0') as nat
  }

  /** The decimal digits of `n`, most significant first, with no leading zero. */
  function NatToString(n: nat): (r: string)
    ensures |r| >= 1
    ensures forall k :: 0 <= k < |r| ==> '0' <= r[k] <= '9'
    ensures r[0] == '0' ==> n == 0
  {
    if n < 10 then [DigitChar(n)] else NatToString(n / 10) + [DigitChar(n % 10)]
  }

  /** Reading back the digits of a number gives the number. */
  lemma {:induction false} NatToStringRoundTrip(n: nat)
    ensures DigitsValue(NatToString(n)) == n
  {
    if n >= 10 {
      NatToStringRoundTrip(n / 10);
      var p, d := NatToString(n / 10), DigitChar(n % 10);
      var r := NatToString(n);
      assert r == p + [d];
      assert r[..|r| - 1] == p;
    }
  }

  /** `n.toString()` for an integer. */
  function IntToString(n: int): (r: string)
    ensures r != ""
    ensures r[0] == '-' <==> n < 0
  {
    if n < 0 then "-" + NatToString(-n) else NatToString(n)
  }

  /** `cell.toString()`. */
  function Stringify(c: Cell): string {
    match c
    case Str(s) => s
    case Num(n) => IntToString(n)
  }

  /** A truthy cell never prints as the empty string. */
  lemma TruthyIsNonEmpty(c: Cell)
    requires Truthy(c)
    ensures Stringify(c) != ""
  {
    match c
    case Str(s) =>
    case Num(n) =>
  }

  /** `row[field]` is defined and truthy. */
  predicate TruthyAt(row: Row, field: string) {
    Lookup(row, field).Some? && Truthy(Lookup(row, field).value)
  }

  /** The test of the lookup loop, as a predicate on field names. */
  function TruthyIn(row: Row): string -> bool {
    (field: string) => TruthyAt(row, field)
  }

  /** The first truthy cell among `fields`, stringified, or `fallback`. */
  function FirstTruthy(row: Row, fields: seq<string>, fallback: string): string {
    match FindIndex(fields, TruthyIn(row))
    case Some(i) => Stringify(Lookup(row, fields[i]).value)
    case None => fallback
  }

  /**
   * The lookup answers with the earliest truthy field and falls through
   * every falsy or missing one; with none truthy it gives the fallback.
   */
  lemma FirstTruthyPriority(row: Row, fields: seq<string>, fallback: string, i: nat)
    requires i < |fields| && TruthyAt(row, fields[i])
    requires forall j :: 0 <= j < i ==> !TruthyAt(row, fields[j])
    ensures FirstTruthy(row, fields, fallback) == Stringify(Lookup(row, fields[i]).value)
  {
    FindIndexAt(fields, TruthyIn(row), i);
  }

  /** Nothing truthy: the fallback. */
  lemma FirstTruthyFallback(row: Row, fields: seq<string>, fallback: string)
    requires forall j :: 0 <= j < |fields| ==> !TruthyAt(row, fields[j])
    ensures FirstTruthy(row, fields, fallback) == fallback
  {
    assert forall j :: 0 <= j < |fields| ==> !TruthyIn(row)(fields[j]);
  }

  /** With a non-empty fallback the answer is never empty. */
  lemma FirstTruthyNonEmpty(row: Row, fields: seq<string>, fallback: string)
    requires fallback != ""
    ensures FirstTruthy(row, fields, fallback) != ""
  {
    match FindIndex(fields, TruthyIn(row))
    case Some(k) =>
      TruthyIsNonEmpty(Lookup(row, fields[k]).value);
    case None =>
  }

  const EmailFields: seq<string> := ["email", "email_address", "Email", "EMAIL"]
  const NameFields: seq<string> := ["name", "Name", "NAME", "full_name", "recipient_name"]

  /** The loop shared by `getEmailFromRow` and `getNameFromRow`: return the first truthy field, else the fallback. */
  method FirstTruthyField(row: Row, fields: seq<string>, fallback: string) returns (value: string)
    ensures value == FirstTruthy(row, fields, fallback)
  {
    for i := 0 to |fields|
      invariant forall j :: 0 <= j < i ==> !TruthyAt(row, fields[j])
    {
      var cell := Lookup(row, fields[i]);
      if cell.Some? && Truthy(cell.value) {
        FirstTruthyPriority(row, fields, fallback, i);
        return Stringify(cell.value);
      }
    }
    FirstTruthyFallback(row, fields, fallback);
    return fallback;
  }

  /** `getEmailFromRow(row)`: the first truthy of `email`, `email_address`, `Email`, `EMAIL`, else `''`. */
  method GetEmailFromRow(row: Row) returns (email: string)
    ensures email == FirstTruthy(row, EmailFields, "")
  {
    email := FirstTruthyField(row, EmailFields, "");
  }

  /** `getNameFromRow(row)`: the first truthy of the five name columns, else `'Recipient'`; never empty. */
  method GetNameFromRow(row: Row) returns (name: string)
    ensures name == FirstTruthy(row, NameFields, "Recipient")
    ensures name != ""
  {
    name := FirstTruthyField(row, NameFields, "Recipient");
    FirstTruthyNonEmpty(row, NameFields, "Recipient");
  }

  /** The example row: an empty address, a zero address and a real one, and no name column. */
  predicate SampleRow(row: Row) {
    row == [("email", Str("")), ("email_address", Num(0)), ("Email", Str("ann@example.com"))]
  }

  /** An empty string and the number 0 count as missing: the address comes from the third column. */
  lemma FalsyCellsFallThrough(row: Row)
    requires SampleRow(row)
    ensures FirstTruthy(row, EmailFields, "") == "ann@example.com"
  {
    assert Keys(row) == ["email", "email_address", "Email"];
    assert IndexOf(Keys(row), "email_address") == 1;
    assert IndexOf(Keys(row), "Email") == 2;
    FirstTruthyPriority(row, EmailFields, "", 2);
  }

  /** With no name column the name is 'Recipient'. */
  lemma MissingNameFallsBack(row: Row)
    requires SampleRow(row)
    ensures FirstTruthy(row, NameFields, "Recipient") == "Recipient"
  {
    var keys := Keys(row);
    assert forall n :: 0 <= n < |keys| ==> keys[n][0] in "eE";
    forall j | 0 <= j < |NameFields| ensures !TruthyAt(row, NameFields[j]) {
      var f := NameFields[j];
      assert f[0] in "nNfr";
      assert f !in keys;
    }
    FirstTruthyFallback(row, NameFields, "Recipient");
  }

  datatype Recipient = Recipient(emailAddress: string, name: string)

  /** The recipient a row stands for. */
  function RecipientOf(row: Row): Recipient {
    Recipient(FirstTruthy(row, EmailFields, ""), FirstTruthy(row, NameFields, "Recipient"))
  }

  datatype EmailRequest = EmailRequest(
    userKey: string,
    serviceId: string,
    templateId: string,
    recipients: seq<Recipient>,
    parameters: Record<string>)

  /** The row parameters are read from: the first one (rows only matter when there are mappings). */
  function FirstRow(csvData: seq<Row>): Row {
    if |csvData| == 0 then [] else csvData[0]
  }

  /** The parameter for `placeholder`: its mapped column's cell in `row`, stringified, when both exist. */
  function ParameterFor(fieldMappings: Record<string>, row: Row, placeholder: string): Option<string> {
    match Lookup(fieldMappings, placeholder)
    case None => None
    case Some(column) =>
      match Lookup(row, column)
      case None => None
      case Some(cell) => Some(Stringify(cell))
  }

  /**
   * The parameter object built from the mapping entries in order: an entry
   * for each placeholder whose column `row` defines, valued with that cell
   * stringified.
   */
  function Parameters(entries: Record<string>, row: Row): (r: Record<string>)
    ensures |r| <= |entries|
  {
    if |entries| == 0 then []
    else
      var rest := Parameters(entries[..|entries| - 1], row);
      var (placeholder, column) := entries[|entries| - 1];
      match Lookup(row, column)
      case None => rest
      case Some(cell) => rest + [(placeholder, Stringify(cell))]
  }

  /** Every parameter key is a mapped placeholder, in the order of the mapping. */
  lemma {:induction false} ParametersKeys(entries: Record<string>, row: Row)
    requires DistinctKeys(entries)
    ensures forall n :: 0 <= n < |Keys(Parameters(entries, row))| ==> Keys(Parameters(entries, row))[n] in Keys(entries)
    ensures forall a, b :: 0 <= a < b < |Keys(Parameters(entries, row))| ==>
      IndexOf(Keys(entries), Keys(Parameters(entries, row))[a]) < IndexOf(Keys(entries), Keys(Parameters(entries, row))[b])
  {
    if |entries| > 0 {
      var prefix := entries[..|entries| - 1];
      var (k, column) := entries[|entries| - 1];
      KeysInit(entries);
      assert Keys(entries)[|entries| - 1] == k;
      DistinctKeysPrefix(entries, |entries| - 1);
      ParametersKeys(prefix, row);
      var rest := Parameters(prefix, row);
      match Lookup(row, column)
      case None =>
        assert Parameters(entries, row) == rest;
      case Some(cell) =>
        assert Parameters(entries, row) == rest + [(k, Stringify(cell))];
        KeysSnoc(rest, k, Stringify(cell));
      OrderedSnoc(Keys(prefix), k, Keys(rest), Keys(Parameters(entries, row)));
    }
  }


  /** Looking a placeholder up in the parameters gives ParameterFor. */
  lemma {:induction false} ParametersLookup(entries: Record<string>, row: Row, placeholder: string)
    requires DistinctKeys(entries)
    ensures Lookup(Parameters(entries, row), placeholder) == ParameterFor(entries, row, placeholder)
  {
    if |entries| > 0 {
      var prefix := entries[..|entries| - 1];
      var (k, column) := entries[|entries| - 1];
      InitLast(entries);
      KeysInit(entries);
      assert Keys(entries)[|entries| - 1] == k;
      assert k !in Keys(prefix);
      DistinctKeysPrefix(entries, |entries| - 1);
      ParametersLookup(prefix, row, placeholder);
      LookupSnoc(prefix, k, column, placeholder);
      var rest := Parameters(prefix, row);
      match Lookup(row, column)
      case None =>
        assert Parameters(entries, row) == rest;
      case Some(cell) =>
        assert Parameters(entries, row) == rest + [(k, Stringify(cell))];
        LookupSnoc(rest, k, Stringify(cell), placeholder);
    }
  }

  /**
   * `createEmailRequest`: fails with "Template not found" without a
   * template; otherwise one recipient per row in row order, the ids copied,
   * and the parameters built from the first row.
   */
  method CreateEmailRequest(userKey: string, serviceId: string, templateId: string, csvData: seq<Row>,
                            fieldMappings: Record<string>, template: Option<Template>)
    returns (r: Result<EmailRequest, string>)
    requires DistinctKeys(fieldMappings)
    requires template.Some? && |fieldMappings| > 0 ==> |csvData| > 0
    ensures template.None? <==> r == Failure("Template not found")
    ensures r.Success? <==> template.Some?
    ensures r.Success? ==> r.value.userKey == userKey && r.value.serviceId == serviceId && r.value.templateId == templateId
    ensures r.Success? ==> |r.value.recipients| == |csvData|
    ensures r.Success? ==> forall k :: 0 <= k < |csvData| ==> r.value.recipients[k] == RecipientOf(csvData[k])
    ensures r.Success? ==> r.value.parameters == Parameters(fieldMappings, FirstRow(csvData))
  {
    if template.None? {
      return Failure("Template not found");
    }

    var recipients := BuildRecipients(csvData);

    var parameters := BuildParameters(fieldMappings, csvData);
    return Success(EmailRequest(userKey, serviceId, templateId, recipients, parameters));
  }

  /**
   * The parameter loop of `createEmailRequest`: for each mapping entry in
   * order, the first row's cell of the mapped column, stringified, when
   * the row defines it.
   */
  method BuildParameters(fieldMappings: Record<string>, csvData: seq<Row>) returns (parameters: Record<string>)
    requires DistinctKeys(fieldMappings)
    requires |fieldMappings| > 0 ==> |csvData| > 0
    ensures parameters == Parameters(fieldMappings, FirstRow(csvData))
  {
    parameters := [];
    for n := 0 to |fieldMappings|
      invariant parameters == Parameters(fieldMappings[..n], FirstRow(csvData))
    {
      var (placeholder, csvField) := fieldMappings[n];
      ParameterNotYetSet(fieldMappings, FirstRow(csvData), n);
      ParametersStep(fieldMappings, FirstRow(csvData), n);
      var cell := Lookup(csvData[0], csvField);
      if cell.Some? {
        SetNew(parameters, placeholder, Stringify(cell.value));
        parameters := Set(parameters, placeholder, Stringify(cell.value));
      }
    }
    assert fieldMappings[..|fieldMappings|] == fieldMappings;
  }

  /** The arrow function mapped over the rows: the row's e-mail address and name. */
  method RecipientFromRow(row: Row) returns (recipient: Recipient)
    ensures recipient == RecipientOf(row)
  {
    var email := GetEmailFromRow(row);
    var name := GetNameFromRow(row);
    recipient := Recipient(email, name);
  }

  /** `csvData.map(row => ({ email_address: getEmailFromRow(row), name: getNameFromRow(row) }))`. */
  method BuildRecipients(csvData: seq<Row>) returns (recipients: seq<Recipient>)
    ensures |recipients| == |csvData|
    ensures forall k :: 0 <= k < |csvData| ==> recipients[k] == RecipientOf(csvData[k])
  {
    recipients := [];
    for k := 0 to |csvData|
      invariant recipients == Map(csvData[..k], RecipientOf)
    {
      var recipient := RecipientFromRow(csvData[k]);
      MapSnoc(csvData[..k], csvData[k], RecipientOf);
      TakeSnoc(csvData, k);
      recipients := recipients + [recipient];
    }
    assert csvData[..|csvData|] == csvData;
  }

  /** One more mapping entry adds its parameter when the row defines its column. */
  lemma ParametersStep(fieldMappings: Record<string>, row: Row, n: nat)
    requires n < |fieldMappings|
    ensures var (placeholder, column) := fieldMappings[n];
      Parameters(fieldMappings[..n + 1], row) ==
        match Lookup(row, column)
        case None => Parameters(fieldMappings[..n], row)
        case Some(cell) => Parameters(fieldMappings[..n], row) + [(placeholder, Stringify(cell))]
  {
    assert fieldMappings[..n + 1][..n] == fieldMappings[..n];
  }

  /** The placeholder of entry `n` is not yet among the parameters built from the entries before it. */
  lemma ParameterNotYetSet(fieldMappings: Record<string>, row: Row, n: nat)
    requires DistinctKeys(fieldMappings) && n < |fieldMappings|
    ensures fieldMappings[n].0 !in Keys(Parameters(fieldMappings[..n], row))
  {
    var prefix := fieldMappings[..n];
    DistinctKeysPrefix(fieldMappings, n);
    ParametersKeys(prefix, row);
    var ks := Keys(Parameters(prefix, row));
    forall m | 0 <= m < |ks| ensures ks[m] != fieldMappings[n].0 {
      var j := IndexOf(Keys(prefix), ks[m]);
      assert Keys(fieldMappings)[j] == ks[m];
    }
  }

  /** The request's parameters: exactly the mapped placeholders whose column the first row defines, stringified, in mapping order. */
  lemma RequestParameters(fieldMappings: Record<string>, row: Row)
    requires DistinctKeys(fieldMappings)
    ensures forall p :: Lookup(Parameters(fieldMappings, row), p) == ParameterFor(fieldMappings, row, p)
    ensures forall a, b :: 0 <= a < b < |Parameters(fieldMappings, row)| ==>
      IndexOf(Keys(fieldMappings), Parameters(fieldMappings, row)[a].0) < IndexOf(Keys(fieldMappings), Parameters(fieldMappings, row)[b].0)
  {
    forall p ensures Lookup(Parameters(fieldMappings, row), p) == ParameterFor(fieldMappings, row, p) {
      ParametersLookup(fieldMappings, row, p);
    }
    ParametersKeys(fieldMappings, row);
    var ks := Keys(Parameters(fieldMappings, row));
    assert forall n :: 0 <= n < |ks| ==> ks[n] == Parameters(fieldMappings, row)[n].0;
  }
}
