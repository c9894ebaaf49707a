/**
  The financing simulator form (`Home` in app/page.tsx): three text fields
  normalised on every keystroke, the validation effect that rebuilds the
  field errors and the validity flag after every change, the submit action
  gated on that flag, and the reset action. The component's state hooks
  are the fields of class `Home`; the validation effect runs synchronously
  at the end of each handler that changes the fields.
 */
module Page {
  import opened Wrappers
  import opened NumberFormat
  import opened Simulacao

  datatype Field = ValorImovel | PercentualEntrada | AnosContrato

  datatype FormData = FormData(valorImovel: string, percentualEntrada: string, anosContrato: string)

  const EmptyForm := FormData("", "", "")

  const PercentualMessage := "Informe um valor entre 5% e 20%"
  const AnosMessage := "Informe entre 1 e 5 anos"

  /** A key that is absent from the error object is `None`. */
  datatype FormErrors = FormErrors(percentual: Option<string>, anos: Option<string>)

  const NoErrors := FormErrors(None, None)

  /** The JSON body sent to the simulation endpoint. */
  datatype SimulationRequest = SimulationRequest(valorImovel: nat, percentualEntrada: nat, anosContrato: nat)

  /** How the request ends: a parsed answer, or any failure (network, non-2xx status, bad body). */
  datatype Response = Received(data: SimulacaoOutput) | Failed

  function Get(fd: FormData, f: Field): string {
    match f
    case ValorImovel => fd.valorImovel
    case PercentualEntrada => fd.percentualEntrada
    case AnosContrato => fd.anosContrato
  }

  /** `{ ...prev, [field]: value }`: the named field takes the value, the others keep theirs. */
  function Set(fd: FormData, f: Field, v: string): (r: FormData)
    ensures Get(r, f) == v
    ensures forall g :: g != f ==> Get(r, g) == Get(fd, g)
  {
    match f
    case ValorImovel => fd.(valorImovel := v)
    case PercentualEntrada => fd.(percentualEntrada := v)
    case AnosContrato => fd.(anosContrato := v)
  }

  /** The length cap of the two digit fields. */
  function MaxLength(f: Field): nat {
    if f == PercentualEntrada then 2 else 1
  }

  /** A value `formatNumber` leaves as it is: one it could have produced. */
  predicate IsFormatted(s: string) {
    FormatNumber(s) == s
  }

  /** The per-field normalisation of `handleChange`. */
  function Normalize(f: Field, raw: string): (v: string)
    ensures f == ValorImovel ==> IsFormatted(v) && WellGrouped(v)
    ensures f == ValorImovel ==> RemoveDots(v) == StripNonDigits(raw) && StripNonDigits(v) == StripNonDigits(raw)
    ensures f != ValorImovel ==> IsDigits(v) && |v| <= MaxLength(f) && v <= StripNonDigits(raw)
    ensures f != ValorImovel ==>
              |v| == if |StripNonDigits(raw)| <= MaxLength(f) then |StripNonDigits(raw)| else MaxLength(f)
  {
    if f == ValorImovel then
      FormatNumberIdempotent(raw);
      StripNonDigitsGroupFrom(StripNonDigits(raw), 0);
      FormatNumberWellGrouped(raw);
      FormatNumberRemoveDots(raw);
      FormatNumber(raw)
    else
      SliceOfStripped(raw, MaxLength(f));
      Slice(StripNonDigits(raw), MaxLength(f))
  }

  /** What every field holds once it has gone through `Normalize`. */
  predicate Normalized(fd: FormData) {
    && IsFormatted(fd.valorImovel)
    && IsDigits(fd.percentualEntrada) && |fd.percentualEntrada| <= MaxLength(PercentualEntrada)
    && IsDigits(fd.anosContrato) && |fd.anosContrato| <= MaxLength(AnosContrato)
  }

  /** `validateForm`'s error object, built from nothing on every run. */
  function ValidateForm(fd: FormData): (e: FormErrors)
    requires IsDigits(fd.percentualEntrada) && IsDigits(fd.anosContrato)
    ensures e.percentual.Some? <==>
              fd.percentualEntrada != "" && !(5 <= DigitsValue(fd.percentualEntrada) <= 20)
    ensures e.anos.Some? <==>
              fd.anosContrato != "" && !(1 <= DigitsValue(fd.anosContrato) <= 5)
    ensures e.percentual.Some? ==> e.percentual.value == PercentualMessage
    ensures e.anos.Some? ==> e.anos.value == AnosMessage
  {
    var percentual :=
      if fd.percentualEntrada != "" then
        var p := DigitsValue(fd.percentualEntrada);
        if p < 5 || p > 20 then Some(PercentualMessage) else None
      else None;
    var anos :=
      if fd.anosContrato != "" then
        var a := DigitsValue(fd.anosContrato);
        if a < 1 || a > 5 then Some(AnosMessage) else None
      else None;
    FormErrors(percentual, anos)
  }

  /** `isFormValid`: every field filled in and the error object without keys. */
  predicate FormIsValid(fd: FormData, e: FormErrors) {
    && fd.valorImovel != ""
    && fd.percentualEntrada != ""
    && fd.anosContrato != ""
    && e == NoErrors
  }

  /** The body of the request: the property value without its dots, and the two integers. */
  function BuildRequest(fd: FormData): (r: SimulationRequest)
    requires Normalized(fd) && FormIsValid(fd, ValidateForm(fd))
    ensures r.valorImovel == DigitsValue(StripNonDigits(fd.valorImovel))
    ensures r.percentualEntrada == DigitsValue(fd.percentualEntrada)
    ensures r.anosContrato == DigitsValue(fd.anosContrato)
    ensures 5 <= r.percentualEntrada <= 20 && 1 <= r.anosContrato <= 5
  {
    FormatNumberRemoveDots(fd.valorImovel);
    SimulationRequest(
      DigitsValue(RemoveDots(fd.valorImovel)),
      DigitsValue(fd.percentualEntrada),
      DigitsValue(fd.anosContrato))
  }

  /** The request as the backend reads it. */
  function ToSimulacaoInput(r: SimulationRequest): SimulacaoInput {
    SimulacaoInput(r.valorImovel as real, r.percentualEntrada as real, r.anosContrato)
  }

  // ----- The component's state ------------------------------------------

  class Home {
    var formData: FormData
    var resultado: Option<SimulacaoOutput>
    var errors: FormErrors
    var isLoading: bool
    var isFormValid: bool

    /** The fields are normalised, and the errors and the flag agree with them. */
    ghost predicate Valid()
      reads this
    {
      && Normalized(formData)
      && errors == ValidateForm(formData)
      && isFormValid == FormIsValid(formData, errors)
    }

    constructor ()
      ensures Valid()
      ensures formData == EmptyForm && resultado == None && !isLoading
      ensures errors == NoErrors && !isFormValid
    {
      formData := EmptyForm;
      resultado := None;
      errors := NoErrors;
      isLoading := false;
      isFormValid := false;
    }

    /** The validation effect: new errors from the current fields, then the validity flag. */
    method ValidateEffect()
      requires Normalized(formData)
      modifies this`errors, this`isFormValid
      ensures Valid()
      ensures errors == ValidateForm(formData) && isFormValid == FormIsValid(formData, errors)
    {
      var newErrors := ValidateForm(formData);
      errors := newErrors;
      isFormValid :=
        formData.valorImovel != "" && formData.percentualEntrada != "" &&
        formData.anosContrato != "" && newErrors.percentual.None? && newErrors.anos.None?;
    }

    /** `handleChange(field)`: normalise the typed value, store it in that field alone, revalidate. */
    method HandleChange(field: Field, value: string)
      requires Valid()
      modifies this`formData, this`errors, this`isFormValid
      ensures Valid()
      ensures errors == ValidateForm(formData) && isFormValid == FormIsValid(formData, errors)
      ensures Get(formData, field) == Normalize(field, value)
      ensures forall f :: f != field ==> Get(formData, f) == Get(old(formData), f)
      ensures resultado == old(resultado) && isLoading == old(isLoading)
    {
      formData := Set(formData, field, Normalize(field, value));
      ValidateEffect();
    }

    /** The first half of `handleSimulate`, up to the network call: the guard and the request. */
    method StartSimulate() returns (request: Option<SimulationRequest>)
      requires Valid()
      modifies this`isLoading
      ensures Valid()
      ensures request.Some? <==> isFormValid
      ensures request.Some? ==> isLoading && request.value == BuildRequest(formData)
      ensures request.None? ==> isLoading == old(isLoading)
    {
      if !isFormValid {
        return None;
      }
      isLoading := true;
      request := Some(BuildRequest(formData));
    }

    /** The second half of `handleSimulate`: store an answer, keep everything on failure, stop loading. */
    method FinishSimulate(response: Response)
      requires Valid()
      modifies this`resultado, this`isLoading
      ensures Valid()
      ensures !isLoading
      ensures formData == old(formData) && errors == old(errors)
      ensures resultado == if response.Received? then Some(response.data) else old(resultado)
    {
      if response.Received? {
        resultado := Some(response.data);
      }
      isLoading := false;
    }

    /** `handleSimulate` with the network call answering `response`. */
    method HandleSimulate(response: Response) returns (request: Option<SimulationRequest>)
      requires Valid()
      modifies this`isLoading, this`resultado
      ensures Valid()
      ensures formData == old(formData) && errors == old(errors)
      ensures !old(isFormValid) ==>
                request == None && resultado == old(resultado) && isLoading == old(isLoading)
      ensures old(isFormValid) ==> request == Some(BuildRequest(formData)) && !isLoading
      ensures old(isFormValid) ==>
                resultado == if response.Received? then Some(response.data) else old(resultado)
    {
      request := StartSimulate();
      if request.Some? {
        FinishSimulate(response);
      }
    }

    /** `handleReset`: empty fields, no result; the effect then clears the errors and the flag. */
    method HandleReset()
      requires Valid()
      modifies this`formData, this`resultado, this`errors, this`isFormValid
      ensures Valid()
      ensures formData == EmptyForm && resultado == None
      ensures errors == NoErrors && !isFormValid
      ensures isLoading == old(isLoading)
    {
      formData := EmptyForm;
      resultado := None;
      ValidateEffect();
    }
  }

  // ----- Properties of the form -------------------------------------------

  /** The form is valid exactly when all three fields are filled in and both bounded fields are in range. */
  lemma FormValidIff(fd: FormData)
    requires Normalized(fd)
    ensures FormIsValid(fd, ValidateForm(fd)) <==>
              && fd.valorImovel != ""
              && fd.percentualEntrada != "" && 5 <= DigitsValue(fd.percentualEntrada) <= 20
              && fd.anosContrato != "" && 1 <= DigitsValue(fd.anosContrato) <= 5
  {
  }

  /** A request from a valid form meets the backend's bounds except, possibly, a zero price. */
  lemma ValidFormRequestAccepted(fd: FormData)
    requires Normalized(fd) && FormIsValid(fd, ValidateForm(fd))
    ensures Accepts(ToSimulacaoInput(BuildRequest(fd))) <==> DigitsValue(StripNonDigits(fd.valorImovel)) > 0
    ensures Accepts(ToSimulacaoInput(BuildRequest(fd))) <==>
              exists k :: 0 <= k < |StripNonDigits(fd.valorImovel)| && StripNonDigits(fd.valorImovel)[k] != '0'
  {
    DigitsValueZero(StripNonDigits(fd.valorImovel));
  }

  /** The form lets a zero price through, which the backend then rejects. */
  lemma ZeroPricePassesFormOnly()
    ensures Normalized(FormData("0", "10", "3"))
    ensures FormIsValid(FormData("0", "10", "3"), ValidateForm(FormData("0", "10", "3")))
    ensures PostSimulacao(ToSimulacaoInput(BuildRequest(FormData("0", "10", "3")))) == None
  {
    var fd := FormData("0", "10", "3");
    assert StripNonDigits("0") == "0";
    assert FormatNumber("0") == "0" by {
      FormatShort("0");
    }
    assert DigitsValue("10") == 10 by {
      assert "10"[..1] == "1";
    }
  }

  // ----- Worked examples --------------------------------------------------

  lemma GroupExample()
    ensures GroupFrom("400000", 0) == "400.000"
  {
    var d := "400000";
    assert GroupFrom(d, 5) == "0";
    assert GroupFrom(d, 4) == "00";
    assert GroupFrom(d, 3) == ".000";
    assert GroupFrom(d, 2) == "0.000";
    assert GroupFrom(d, 1) == "00.000";
  }

  lemma FormatExample()
    ensures FormatNumber("400000") == "400.000"
  {
    StripNonDigitsOfDigits("400000");
    GroupExample();
  }

  lemma StripExample()
    ensures StripNonDigits("400.000") == "400000"
  {
    StripNonDigitsAppend("400", ".000");
    StripNonDigitsOfDigits("400");
    StripNonDigitsOfDigits("000");
    assert ".000"[1..] == "000";
    assert "400" + ".000" == "400.000";
  }

  lemma ValueExample()
    ensures DigitsValue("400000") == 400000
  {
    assert DigitsValue("40") == 40 by { assert "40"[..1] == "4"; }
    assert DigitsValue("400") == 400 by { assert "400"[..2] == "40"; }
    assert DigitsValue("4000") == 4000 by { assert "4000"[..3] == "400"; }
    assert DigitsValue("40000") == 40000 by { assert "40000"[..4] == "4000"; }
    assert "400000"[..5] == "40000";
  }

  lemma DigitFieldsExample()
    ensures Normalize(PercentualEntrada, "10") == "10" && DigitsValue("10") == 10
    ensures Normalize(AnosContrato, "3") == "3" && DigitsValue("3") == 3
  {
    StripNonDigitsOfDigits("10");
    StripNonDigitsOfDigits("3");
    assert "10"[..1] == "1";
  }

  /** Typing "400000", "10" and "3" gives a valid form that submits {400000, 10, 3}. */
  lemma TypedValuesRequest()
    ensures Normalize(ValorImovel, "400000") == "400.000"
    ensures Normalize(PercentualEntrada, "10") == "10" && Normalize(AnosContrato, "3") == "3"
    ensures Normalized(FormData("400.000", "10", "3"))
    ensures FormIsValid(FormData("400.000", "10", "3"), ValidateForm(FormData("400.000", "10", "3")))
    ensures BuildRequest(FormData("400.000", "10", "3")) == SimulationRequest(400000, 10, 3)
  {
    FormatExample();
    StripExample();
    ValueExample();
    DigitFieldsExample();
  }

  /** A percentage of 25 and a term of 0 years each show their message, and the form stays invalid. */
  lemma OutOfRangeMessages(valorImovel: string)
    ensures ValidateForm(FormData(valorImovel, "25", "0")) == FormErrors(Some(PercentualMessage), Some(AnosMessage))
    ensures !FormIsValid(FormData(valorImovel, "25", "0"), ValidateForm(FormData(valorImovel, "25", "0")))
  {
    assert DigitsValue("25") == 25 by {
      assert "25"[..1] == "2";
    }
  }

  // ----- A session with the form ------------------------------------------

  /**
    For any typed values that make the form valid: a failed call keeps what
    was typed and ends loading; a second call whose answer arrives after the
    form was reset still shows that answer over the emptied form, since the
    handler does not check whether the answer is stale.
    The sequence is reachable through the handlers. On the page, the reset
    button is rendered only while a result is on screen, so the reset needs
    a result shown while a call is out, for example after a second click
    that lands before the submit button is disabled.
   */
  method FailureThenLateAnswer(valor: string, percentual: string, anos: string, data: SimulacaoOutput)
    returns (afterFailure: FormData, loadingAfterFailure: bool, afterReset: FormData, shown: Option<SimulacaoOutput>)
    requires
      var fd := FormData(Normalize(ValorImovel, valor), Normalize(PercentualEntrada, percentual), Normalize(AnosContrato, anos));
      FormIsValid(fd, ValidateForm(fd))
    ensures afterFailure == FormData(Normalize(ValorImovel, valor), Normalize(PercentualEntrada, percentual), Normalize(AnosContrato, anos))
    ensures !loadingAfterFailure
    ensures afterReset == EmptyForm && shown == Some(data)
  {
    var home := new Home();
    home.HandleChange(ValorImovel, valor);
    home.HandleChange(PercentualEntrada, percentual);
    home.HandleChange(AnosContrato, anos);
    assert home.formData == FormData(Normalize(ValorImovel, valor), Normalize(PercentualEntrada, percentual), Normalize(AnosContrato, anos));
    var first := home.HandleSimulate(Failed);
    afterFailure, loadingAfterFailure := home.formData, home.isLoading;
    var second := home.StartSimulate();
    home.HandleReset();
    home.FinishSimulate(Received(data));
    afterReset, shown := home.formData, home.resultado;
  }
}
