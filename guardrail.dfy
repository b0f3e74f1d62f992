/** The sample-size guardrail of `mc_cc0.ssm_guardrail`: the effective
    variance factor `var_eff`, the floored `gamma` and the `ok` flag with its
    message. */
module Guardrail {

  /** A float that may be positive infinity. */
  datatype Ext = Inf | Fin(value: real)

  /** `var_eff(n)`: infinite for n <= 3, otherwise 1 + 2/(n - 3). */
  function VarEff(n: int): (v: Ext)
    ensures v.Inf? <==> n <= 3
    ensures v.Fin? ==> v.value > 1.0 && (v.value - 1.0) * (n - 3) as real == 2.0
  {
    if n <= 3 then Inf else Fin(1.0 + 2.0 / (n - 3) as real)
  }

  /** The variance factor strictly decreases as n grows past 3. */
  lemma VarEffDecreasing(n1: int, n2: int)
    requires 3 < n1 < n2
    ensures VarEff(n2).value < VarEff(n1).value
  {
    var a, b := (n1 - 3) as real, (n2 - 3) as real;
    assert 0.0 < a < b;
    assert 2.0 / b < 2.0 / a by {
      assert (2.0 / b) * b == 2.0 == (2.0 / a) * a;
      assert (2.0 / b) * a < (2.0 / b) * b;
    }
  }

  /** The floor that keeps `gamma` above 1. */
  const GammaFloor: real := 1.0000001

  /** The larger of the floor and the effective variance factor, with
      infinity staying infinite. */
  function Gamma(ve: Ext): (g: Ext)
    ensures g.Inf? <==> ve.Inf?
    ensures g.Fin? ==> g.value >= GammaFloor
    ensures g.Fin? ==> (g.value == ve.value <==> ve.value >= GammaFloor)
    ensures g.Fin? ==> g.value == ve.value || g.value == GammaFloor
  {
    match ve
    case Inf => Inf
    case Fin(x) => Fin(if GammaFloor >= x then GammaFloor else x)
  }

  /** The floor is reached only for very large samples: `gamma` equals
      `var_eff` exactly when n <= 20000003. */
  lemma GammaIsVarEffUpTo(n: int)
    ensures Gamma(VarEff(n)) == VarEff(n) <==> n <= 20000003
  {
    if n > 3 {
      var d := (n - 3) as real;
      var x := 2.0 / d;
      assert x * d == 2.0;
      if n <= 20000003 {
        assert d <= 20000000.0;
        assert x * 20000000.0 >= x * d;
      } else {
        assert d > 20000000.0;
        assert x * d > x * 20000000.0;
      }
    }
  }

  /** The decimal text of an integer, as Python's `str`: digits that read
      back as n, after a minus sign when n is negative. */
  function IntToString(n: int): (s: string)
    ensures s != []
    ensures n >= 0 ==> (forall i :: 0 <= i < |s| ==> '0' <= s[i] <= '9') && DigitsValue(s) == n
    ensures n < 0 ==> s[0] == '-' && (forall i :: 1 <= i < |s| ==> '0' <= s[i] <= '9')
                      && DigitsValue(s[1..]) == -n
  {
    if n < 0 then
      NatToStringRoundTrip(-n);
      assert ("-" + NatToString(-n))[1..] == NatToString(-n);
      "-" + NatToString(-n)
    else
      NatToStringRoundTrip(n);
      NatToString(n)
  }

  function Digit(d: nat): (c: char)
    requires d < 10
    ensures '0' <= c <= '9'
  {
    "0123456789"[d]
  }

  function NatToString(n: nat): (s: string)
    ensures s != []
    ensures forall i :: 0 <= i < |s| ==> '0' <= s[i] <= '9'
  {
    if n < 10 then [Digit(n)] else NatToString(n / 10) + [Digit(n % 10)]
  }

  /** The value of a string of decimal digits. */
  function DigitsValue(s: string): nat
    requires forall i :: 0 <= i < |s| ==> '0' <= s[i] <= '9'
  {
    if s == [] then 0
    else DigitsValue(s[..|s| - 1]) * 10 + ((s[|s| - 1] as int) - ('0' as int))
  }

  /** Reading back the decimal text gives the number. */
  lemma {:induction false} NatToStringRoundTrip(n: nat)
    ensures DigitsValue(NatToString(n)) == n
  {
    if n >= 10 {
      NatToStringRoundTrip(n / 10);
      var s := NatToString(n);
      assert s[..|s| - 1] == NatToString(n / 10);
    }
  }

  const DefaultNMin: int := 1000

  /** The dictionary `check_guardrail` returns. */
  datatype Report = Report(ok: bool, n: int, nMin: int, varEff: Ext, gamma: Ext, message: string)

  const FailurePrefix: string := "N too small for operational guardrail (need >= "

  /** The message of a failing report: the fixed text, then n_min in
      decimal, then a closing parenthesis; never "OK". */
  function FailureMessage(nMin: int): (msg: string)
    ensures msg != "OK"
    ensures |msg| > |FailurePrefix| + 1 && msg[..|FailurePrefix|] == FailurePrefix
    ensures msg[|msg| - 1] == ')'
  {
    FailurePrefix + IntToString(nMin) + ")"
  }

  /** `check_guardrail(n, n_min)`: `ok` exactly when n reaches n_min; the
      message is "OK" exactly when `ok` and otherwise names n_min; n and
      n_min are echoed and gamma is the floored variance factor. */
  function CheckGuardrail(n: int, nMin: int): (r: Report)
    ensures r.ok <==> n >= nMin
    ensures r.n == n && r.nMin == nMin
    ensures r.varEff == VarEff(n) && r.gamma == Gamma(VarEff(n))
    ensures r.gamma.Inf? <==> n <= 3
    ensures r.gamma.Fin? ==> r.gamma.value > 1.0
    ensures r.message == "OK" <==> r.ok
    ensures !r.ok ==> r.message == FailureMessage(nMin)
  {
    var ve := VarEff(n);
    var ok := n >= nMin;
    Report(ok, n, nMin, ve, Gamma(ve), if ok then "OK" else FailureMessage(nMin))
  }

  /** `check_guardrail(n)` with the default `n_min = 1000`. */
  function CheckGuardrailDefault(n: int): (r: Report)
    ensures r.ok <==> n >= 1000
    ensures r.nMin == 1000
  {
    CheckGuardrail(n, DefaultNMin)
  }

  /** A failing report's message carries n_min in decimal after the text
      "need >= ". */
  lemma FailureMessageNamesNMin(nMin: nat)
    ensures var msg := FailureMessage(nMin);
            var prefix := FailurePrefix;
            |msg| == |prefix| + |NatToString(nMin)| + 1
            && DigitsValue(msg[|prefix|..|msg| - 1]) == nMin
  {
    var prefix := FailurePrefix;
    var msg := FailureMessage(nMin);
    assert msg[|prefix|..|msg| - 1] == NatToString(nMin);
    NatToStringRoundTrip(nMin);
  }
}
