/** Money of `pkg/sdk/money.go` and the line/total loop of `CreateDocument` in
    `internal/core/usecase/document/document_usecase.go`. float64 quantities are reals. */
module DocumentTotals {
  import opened Shared
  import opened Text

  // ---- Currency codes ----

  function NormalizeCode(s: string): string {
    TrimSpace(ToUpper(s))
  }

  predicate IsCode(s: string) {
    |s| == 3 && NormalizeCode(s) == s
  }

  lemma TrimKeepsUpper(u: string)
    requires forall i :: 0 <= i < |u| ==> Upper(u[i]) == u[i]
    ensures ToUpper(TrimSpace(u)) == TrimSpace(u)
  {
    hide IsSpace, Upper;
    var l := TrimLeft(u);
    var n := TrimRight(l);
    TrimLeftIsSuffix(u);
    TrimRightIsPrefix(l);
    forall i | 0 <= i < |n| ensures Upper(n[i]) == n[i] {
      assert n[i] == l[i] == u[|u| - |l| + i];
    }
  }

  /** Normalising is idempotent, so `NewMoney` yields codes in normal form. */
  lemma NormalizeIsIdempotent(s: string)
    ensures NormalizeCode(NormalizeCode(s)) == NormalizeCode(s)
  {
    hide TrimSpace, IsSpace;
    var u := ToUpper(s);
    assert forall i :: 0 <= i < |u| ==> Upper(u[i]) == u[i];
    TrimKeepsUpper(u);
    TrimIsTrimmed(u);
  }

  // ---- Money ----

  datatype Money = Money(amount: int, currency: string)

  /** The only values the package lets exist: the zero value and results of `NewMoney`. */
  predicate MoneyOk(m: Money) {
    m.currency == "" || IsCode(m.currency)
  }

  datatype MoneyError = InvalidCurrency | CurrencyMismatch

  function NewMoney(amount: int, currency: string): (r: Result<Money, MoneyError>)
    ensures r.Ok? <==> |NormalizeCode(currency)| == 3
    ensures r.Ok? ==> r.value == Money(amount, NormalizeCode(currency)) && IsCode(r.value.currency)
  {
    NormalizeIsIdempotent(currency);
    var code := NormalizeCode(currency);
    if |code| != 3 then Err(InvalidCurrency) else Ok(Money(amount, code))
  }

  function Add(m: Money, other: Money): Result<Money, MoneyError> {
    if m.currency != other.currency then Err(CurrencyMismatch) else Ok(Money(m.amount + other.amount, m.currency))
  }

  /** `int64(x)`: truncation towards zero. */
  function Truncate(x: real): int {
    if x >= 0.0 then x.Floor else -((-x).Floor)
  }

  function Round(x: real): int {
    if x >= 0.0 then Truncate(x + 0.5) else Truncate(x - 0.5)
  }

  /** Rounding is to a nearest integer, and symmetric around zero. */
  lemma RoundIsNearest(x: real)
    ensures -0.5 <= Round(x) as real - x <= 0.5
    ensures Round(-x) == -Round(x)
  {
  }

  function Times(amount: int, factor: real): real {
    amount as real * factor
  }

  function MultiplyFloat(m: Money, factor: real): Money {
    Money(Round(Times(m.amount, factor)), m.currency)
  }

  // ---- Lines and total ----

  datatype LineInput = LineInput(quantity: real, unit: Id, unitPrice: Money)

  datatype Line = Line(number: int, quantity: real, unit: Id, unitPrice: Money, subtotal: Money)

  datatype LineError = BadQuantity(line: int) | MissingUnit(line: int) | WrongCurrency(line: int) | Mismatch(line: int)

  datatype Built = Built(lines: seq<Line>, total: Money) | Rejected(error: LineError) | Panics

  /** The document currency before normalisation. */
  function EffectiveCurrency(currency: string, inputs: seq<LineInput>): string {
    if TrimSpace(currency) != "" then TrimSpace(currency)
    else if |inputs| > 0 && inputs[0].unitPrice.currency != "" then inputs[0].unitPrice.currency
    else "IDR"
  }

  /** A line that the loop accepts. */
  predicate LineOk(currency: string, l: LineInput) {
    l.quantity > 0.0 && l.unit != NIL_ID && (l.unitPrice.currency == "" || l.unitPrice.currency == currency)
  }

  function SumSubtotals(lines: seq<Line>): int {
    if lines == [] then 0 else SumSubtotals(lines[..|lines| - 1]) + lines[|lines| - 1].subtotal.amount
  }

  /** Price times quantity, before rounding. */
  function ExactSubtotal(l: LineInput): real {
    Times(l.unitPrice.amount, l.quantity)
  }

  function ExactTotal(inputs: seq<LineInput>): real {
    if inputs == [] then 0.0 else ExactTotal(inputs[..|inputs| - 1]) + ExactSubtotal(inputs[|inputs| - 1])
  }

  /** A line built from its input: numbered, in the document currency, rounded to the minor unit. */
  ghost predicate LineFrom(line: Line, l: LineInput, number: int, code: string) {
    && line.number == number && line.quantity == l.quantity && line.unit == l.unit
    && line.unitPrice == Money(l.unitPrice.amount, code)
    && line.subtotal == Money(Round(ExactSubtotal(l)), code)
  }

  ghost predicate LinesFrom(lines: seq<Line>, inputs: seq<LineInput>, code: string) {
    |lines| == |inputs| && forall i :: 0 <= i < |lines| ==> LineFrom(lines[i], inputs[i], i + 1, code)
  }

  /** Why a line is refused: the first of its faults. */
  function LineErrorOf(currency: string, l: LineInput, number: int): LineError {
    if l.quantity <= 0.0 then BadQuantity(number)
    else if l.unit == NIL_ID then MissingUnit(number)
    else WrongCurrency(number)
  }

  /** `e` is about the first line that is not acceptable. */
  ghost predicate FirstFault(currency: string, inputs: seq<LineInput>, e: LineError) {
    exists i: nat :: IsFirstFault(currency, inputs, e, i)
  }

  ghost predicate IsFirstFault(currency: string, inputs: seq<LineInput>, e: LineError, i: nat) {
    && i < |inputs| && !LineOk(currency, inputs[i]) && (forall k :: 0 <= k < i ==> LineOk(currency, inputs[k]))
    && e == LineErrorOf(currency, inputs[i], i + 1)
  }

  datatype LineStep = LineStep(line: Line, total: Money)

  /** One iteration of the loop; `raw` is the document currency as typed. */
  method BuildLine(raw: string, number: int, l: LineInput, total: Money) returns (r: Result<LineStep, LineError>)
    requires MoneyOk(l.unitPrice) && |NormalizeCode(raw)| == 3 && total.currency == NormalizeCode(raw)
    ensures r.Ok? <==> LineOk(raw, l)
    ensures r.Err? ==> r.error == LineErrorOf(raw, l, number)
    ensures r.Ok? ==> LineFrom(r.value.line, l, number, NormalizeCode(raw))
    ensures r.Ok? ==> r.value.total == Money(total.amount + r.value.line.subtotal.amount, NormalizeCode(raw))
  {
    hide NormalizeCode, Round, Times;
    if l.quantity <= 0.0 { return Err(BadQuantity(number)); }
    if l.unit == NIL_ID { return Err(MissingUnit(number)); }
    var unitPrice := l.unitPrice;
    if unitPrice.currency == "" {
      unitPrice := NewMoney(l.unitPrice.amount, raw).value;
    } else if unitPrice.currency != raw {
      return Err(WrongCurrency(number));
    }
    var subtotal := MultiplyFloat(unitPrice, l.quantity);
    var sum := Add(total, subtotal);
    if sum.Err? { return Err(Mismatch(number)); }
    return Ok(LineStep(Line(number, l.quantity, l.unit, unitPrice, subtotal), sum.value));
  }

  lemma OneLineMore(lines: seq<Line>, inputs: seq<LineInput>, i: nat, line: Line, code: string)
    requires i < |inputs| && LinesFrom(lines, inputs[..i], code) && LineFrom(line, inputs[i], i + 1, code)
    ensures LinesFrom(lines + [line], inputs[..i + 1], code)
    ensures SumSubtotals(lines + [line]) == SumSubtotals(lines) + line.subtotal.amount
  {
    hide LineFrom;
    assert (lines + [line])[..|lines|] == lines;
  }

  /** The loop of `CreateDocument`. It succeeds exactly on acceptable input; then every line and
      the total carry one normalised currency and the total is the sum of the subtotals. */
  method BuildLines(currency: string, inputs: seq<LineInput>) returns (r: Built)
    requires forall i :: 0 <= i < |inputs| ==> MoneyOk(inputs[i].unitPrice)
    ensures var raw := EffectiveCurrency(currency, inputs);
            && (r.Panics? <==> |NormalizeCode(raw)| != 3)
            && (r.Built? <==> |NormalizeCode(raw)| == 3 && forall i :: 0 <= i < |inputs| ==> LineOk(raw, inputs[i]))
            && (r.Rejected? ==> FirstFault(raw, inputs, r.error))
            && (r.Built? ==> LinesFrom(r.lines, inputs, NormalizeCode(raw)) && IsCode(NormalizeCode(raw))
                             && r.total == Money(SumSubtotals(r.lines), NormalizeCode(raw)))
  {
    hide NormalizeCode, EffectiveCurrency, LineFrom, LineOk, LinesFrom, MoneyOk;
    var raw := EffectiveCurrency(currency, inputs);
    NormalizeIsIdempotent(raw);
    var zero := NewMoney(0, raw);
    if zero.Err? { return Panics; }
    var total := zero.value;
    var lines: seq<Line> := [];
    assert LinesFrom([], inputs[..0], NormalizeCode(raw)) by { NoLines(inputs[..0], NormalizeCode(raw)); }
    for i := 0 to |inputs|
      invariant LinesFrom(lines, inputs[..i], NormalizeCode(raw))
      invariant total == Money(SumSubtotals(lines), NormalizeCode(raw))
      invariant forall k :: 0 <= k < i ==> LineOk(raw, inputs[k])
    {
      var step := BuildLine(raw, i + 1, inputs[i], total);
      if step.Err? {
        assert IsFirstFault(raw, inputs, step.error, i);
        return Rejected(step.error);
      }
      OneLineMore(lines, inputs, i, step.value.line, NormalizeCode(raw));
      lines, total := lines + [step.value.line], step.value.total;
    }
    assert inputs[..|inputs|] == inputs;
    return Built(lines, total);
  }

  lemma NoLines(inputs: seq<LineInput>, code: string)
    requires inputs == []
    ensures LinesFrom([], inputs, code)
  {
  }

  /** The total is within half a minor unit per line of the exact sum of price times quantity. */
  lemma {:induction false} TotalIsClose(lines: seq<Line>, inputs: seq<LineInput>, code: string)
    requires LinesFrom(lines, inputs, code)
    ensures -(|lines| as real) / 2.0 <= SumSubtotals(lines) as real - ExactTotal(inputs) <= |lines| as real / 2.0
    decreases |lines|
  {
    hide Round, ExactSubtotal;
    if lines != [] {
      var n := |lines| - 1;
      TotalIsClose(lines[..n], inputs[..n], code);
      assert LineFrom(lines[n], inputs[n], n + 1, code);
      RoundIsNearest(ExactSubtotal(inputs[n]));
    }
  }

  /** The comparison uses the currency as typed, not its normal form: a document currency in lower
      case rejects every line that states a currency, even the same one. */
  lemma UnnormalizedCurrencyRejects(currency: string, inputs: seq<LineInput>, i: nat)
    requires i < |inputs| && MoneyOk(inputs[i].unitPrice) && inputs[i].unitPrice.currency != ""
    requires TrimSpace(currency) != "" && NormalizeCode(TrimSpace(currency)) != TrimSpace(currency)
    ensures !LineOk(EffectiveCurrency(currency, inputs), inputs[i])
  {
  }

  /** The document currency: as typed if anything is, else the first line's if it states one, else IDR. */
  lemma CurrencyIsChosen(currency: string, inputs: seq<LineInput>)
    ensures TrimSpace(currency) != "" ==> EffectiveCurrency(currency, inputs) == TrimSpace(currency)
    ensures TrimSpace(currency) == "" && (inputs == [] || inputs[0].unitPrice.currency == "") ==>
            EffectiveCurrency(currency, inputs) == "IDR"
    ensures TrimSpace(currency) == "" && inputs != [] && inputs[0].unitPrice.currency != "" ==>
            EffectiveCurrency(currency, inputs) == inputs[0].unitPrice.currency
  {
  }

  /** A code is the text without the spaces around it, letter by letter in capitals. */
  lemma NormalCode(s: string) returns (left: string, right: string)
    ensures var code := NormalizeCode(s);
            && |s| == |left| + |code| + |right|
            && (forall i :: 0 <= i < |code| ==> code[i] == Upper(s[|left| + i]) && !('a' <= code[i] <= 'z'))
            && (code != "" ==> !IsSpace(code[0]) && !IsSpace(code[|code| - 1]))
    ensures forall i :: 0 <= i < |left| ==> IsSpace(Upper(s[i]))
    ensures forall i :: |s| - |right| <= i < |s| ==> IsSpace(Upper(s[i]))
  {
    hide TrimSpace, IsSpace;
    var u := ToUpper(s);
    left, right := TrimMeans(u);
    forall i | 0 <= i < |NormalizeCode(s)|
      ensures NormalizeCode(s)[i] == Upper(s[|left| + i]) && !('a' <= NormalizeCode(s)[i] <= 'z')
    {
      assert NormalizeCode(s)[i] == u[|left| + i] == Upper(s[|left| + i]);
      CasesPairUp(s[|left| + i]);
    }
    forall i | 0 <= i < |left| ensures IsSpace(Upper(s[i])) { assert left[i] == u[i]; }
    forall i | |s| - |right| <= i < |s| ensures IsSpace(Upper(s[i])) {
      assert right[i - (|s| - |right|)] == u[i];
    }
  }

  /** Halves are rounded away from zero. */
  lemma HalvesRoundAway(n: nat)
    ensures Round(n as real + 0.5) == n + 1 && Round(-(n as real) - 0.5) == -(n + 1)
  {
  }
}
