/**
  The backend's `POST /simulacao`: the bounds the request body must meet
  (`SimulacaoInput`) and the financing figures derived from it (`simular`).
  Amounts are exact reals; the final rounding to two decimals is not
  modelled, so every relation below is the one that holds before it.
 */
module Simulacao {
  import opened Wrappers

  datatype SimulacaoInput = SimulacaoInput(valorImovel: real, percentualEntrada: real, anosContrato: int)

  datatype SimulacaoOutput = SimulacaoOutput(
    valorEntrada: real,
    valorFinanciado: real,
    totalAGuardar: real,
    parcelaMensal: real)

  /** The field constraints: a positive price, a 5-20 % down payment, a 1-5 year term. */
  predicate Accepts(data: SimulacaoInput) {
    && data.valorImovel > 0.0
    && 5.0 <= data.percentualEntrada <= 20.0
    && 1 <= data.anosContrato <= 5
  }

  /** Down payment and financed amount split the price; a share of 15 % of the price is saved in monthly instalments. */
  function Simular(data: SimulacaoInput): (out: SimulacaoOutput)
    requires Accepts(data)
    ensures out.valorEntrada == data.valorImovel * (data.percentualEntrada / 100.0)
    ensures out.valorEntrada + out.valorFinanciado == data.valorImovel
    ensures data.valorImovel * 0.05 <= out.valorEntrada <= data.valorImovel * 0.20
    ensures data.valorImovel * 0.80 <= out.valorFinanciado <= data.valorImovel * 0.95
    ensures out.totalAGuardar == data.valorImovel * 0.15
    ensures out.parcelaMensal * (data.anosContrato * 12) as real == out.totalAGuardar
    ensures 0.0 < out.parcelaMensal <= out.totalAGuardar / 12.0
    ensures out.valorEntrada > 0.0 && out.valorFinanciado > 0.0
    ensures out.totalAGuardar > 0.0 && out.parcelaMensal > 0.0
  {
    var v := data.valorImovel;
    var p := data.percentualEntrada;
    var months := (data.anosContrato * 12) as real;
    var valorEntrada := v * (p / 100.0);
    var valorFinanciado := v - valorEntrada;
    var totalAGuardar := v * 0.15;
    var parcelaMensal := totalAGuardar / months;
    ShareBounds(v, p, valorEntrada);
    InstalmentBounds(totalAGuardar, months);
    SimulacaoOutput(valorEntrada, valorFinanciado, totalAGuardar, parcelaMensal)
  }

  /** The endpoint: an answer for an accepted body, a validation error (no answer) otherwise. */
  function PostSimulacao(data: SimulacaoInput): (r: Option<SimulacaoOutput>)
    ensures r.Some? <==> Accepts(data)
    ensures r.Some? ==> r.value == Simular(data)
  {
    if Accepts(data) then Some(Simular(data)) else None
  }

  lemma ShareBounds(v: real, p: real, share: real)
    requires v > 0.0 && 5.0 <= p <= 20.0 && share == v * (p / 100.0)
    ensures 0.0 < v * 0.05 <= share <= v * 0.20
    ensures v * 0.80 <= v - share <= v * 0.95
  {
    assert share - v * 0.05 == v * ((p - 5.0) / 100.0);
    assert v * 0.20 - share == v * ((20.0 - p) / 100.0);
    assert v * 0.80 == v - v * 0.20;
    assert v * 0.95 == v - v * 0.05;
  }

  lemma InstalmentBounds(total: real, months: real)
    requires total > 0.0 && months >= 12.0
    ensures (total / months) * months == total
    ensures 0.0 < total / months <= total / 12.0
  {
    assert total / months <= total / 12.0 by {
      assert total / 12.0 - total / months == total * (months - 12.0) / (12.0 * months);
    }
  }

  lemma InstalmentDecreases(total: real, ma: real, mb: real)
    requires total > 0.0 && 0.0 < ma < mb
    ensures total / mb < total / ma
  {
    assert (total / mb) * mb == total;
    assert (total / ma) * ma == total;
    assert (total / mb) * ma < (total / mb) * mb;
  }

  /** The amount to save depends on the price alone, not on the down payment or the term. */
  lemma TotalDependsOnPriceOnly(a: SimulacaoInput, b: SimulacaoInput)
    requires Accepts(a) && Accepts(b)
    requires a.valorImovel == b.valorImovel
    ensures Simular(a).totalAGuardar == Simular(b).totalAGuardar
  {
  }

  /** A longer term gives a smaller instalment for the same price. */
  lemma LongerTermSmallerInstalment(a: SimulacaoInput, b: SimulacaoInput)
    requires Accepts(a) && Accepts(b)
    requires a.valorImovel == b.valorImovel && a.anosContrato < b.anosContrato
    ensures Simular(b).parcelaMensal < Simular(a).parcelaMensal
  {
    var total := a.valorImovel * 0.15;
    var ma := (a.anosContrato * 12) as real;
    var mb := (b.anosContrato * 12) as real;
    assert Simular(a).parcelaMensal == total / ma;
    assert Simular(b).parcelaMensal == total / mb;
    InstalmentDecreases(total, ma, mb);
  }

  /** A larger down payment leaves a smaller financed amount for the same price. */
  lemma LargerDownPaymentLessFinanced(a: SimulacaoInput, b: SimulacaoInput)
    requires Accepts(a) && Accepts(b)
    requires a.valorImovel == b.valorImovel && a.percentualEntrada < b.percentualEntrada
    ensures Simular(b).valorEntrada > Simular(a).valorEntrada
    ensures Simular(b).valorFinanciado < Simular(a).valorFinanciado
  {
    var v := a.valorImovel;
    var ea, eb := Simular(a).valorEntrada, Simular(b).valorEntrada;
    assert ea == v * (a.percentualEntrada / 100.0);
    assert eb == v * (b.percentualEntrada / 100.0);
    var d := (b.percentualEntrada - a.percentualEntrada) / 100.0;
    assert eb - ea == v * d;
    assert v * d > 0.0 by {
      assert d > 0.0;
    }
  }
}
