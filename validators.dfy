/** The seven field validators of main.js. Each returns its verdict and
    raises one alert when, and only when, the value is rejected; the alert
    is returned beside the verdict instead of being shown. */
module Validators {
  import opened JsText
  import opened JsParseInt
  import opened EmailPattern

  /** The alerts main.js can show. The log records which alert was raised;
      Text gives the words on screen, each a sentence ending in a full stop. */
  datatype Alert =
    | NombreCorto | ApellidosCortos | EdadFueraDeRango | EmailInvalido
    | DiaVacio | HoraVacia | TipoVacio
    | Enviado(form: string) | Revisar(form: string)

  function Text(a: Alert): (t: string)
    ensures |t| > 0 && t[|t| - 1] == '.'
  {
    match a
    case NombreCorto => "El nombre debe tener al menos 2 caracteres."
    case ApellidosCortos => "Los apellidos deben tener al menos 2 caracteres."
    case EdadFueraDeRango => "La edad debe estar entre 0 y 120."
    case EmailInvalido => "El correo electrónico no es válido."
    case DiaVacio => "Debes seleccionar un día."
    case HoraVacia => "Debes indicar una hora."
    case TipoVacio => "Debes seleccionar el tipo de bicicleta."
    case Enviado(form) => "Formulario de " + form + " enviado correctamente."
    case Revisar(form) => "Revisa los datos del formulario de " + form + "."
  }

  /** A validator's answer and the alerts it raised. */
  datatype Verdict = Verdict(ok: bool, alerts: seq<Alert>)

  /** validarNombre: at least two characters. */
  function ValidarNombre(nombre: string): (v: Verdict)
    ensures v.ok <==> |nombre| >= 2
    ensures v.alerts == if v.ok then [] else [NombreCorto]
  {
    if |nombre| < 2 then Verdict(false, [NombreCorto]) else Verdict(true, [])
  }

  /** validarApellidos: at least two characters. */
  function ValidarApellidos(apellidos: string): (v: Verdict)
    ensures v.ok <==> |apellidos| >= 2
    ensures v.alerts == if v.ok then [] else [ApellidosCortos]
  {
    if |apellidos| < 2 then Verdict(false, [ApellidosCortos]) else Verdict(true, [])
  }

  /** validarEdad: parseInt gives a number (not NaN) between 0 and 120
      inclusive. */
  function ValidarEdad(edad: string): (v: Verdict)
    ensures v.ok <==> ParseIntPrefix(edad).Some? && 0 <= ParseIntPrefix(edad).value <= 120
    ensures v.alerts == if v.ok then [] else [EdadFueraDeRango]
  {
    var num := ParseIntPrefix(edad);
    if num.None? || num.value < 0 || num.value > 120 then Verdict(false, [EdadFueraDeRango])
    else Verdict(true, [])
  }

  /** validarEmail: the anchored pattern accepts the whole string, that is,
      the string has no white space, a single '@' that is not its first
      character, and a dot with a character on each side after the '@'. */
  function ValidarEmail(email: string): (v: Verdict)
    ensures v.ok <==> HasEmailShape(email)
    ensures v.alerts == if v.ok then [] else [EmailInvalido]
  {
    PatternIsShape(email);
    if !MatchesPattern(email) then Verdict(false, [EmailInvalido]) else Verdict(true, [])
  }

  /** validarDia: `!dia` holds of a string exactly when it is empty. */
  function ValidarDia(dia: string): (v: Verdict)
    ensures v.ok <==> dia != []
    ensures v.alerts == if v.ok then [] else [DiaVacio]
  {
    if |dia| == 0 then Verdict(false, [DiaVacio]) else Verdict(true, [])
  }

  /** validarHora: `!hora` holds of a string exactly when it is empty. */
  function ValidarHora(hora: string): (v: Verdict)
    ensures v.ok <==> hora != []
    ensures v.alerts == if v.ok then [] else [HoraVacia]
  {
    if |hora| == 0 then Verdict(false, [HoraVacia]) else Verdict(true, [])
  }

  /** validarTipo: rejects the string equal to "". */
  function ValidarTipo(tipo: string): (v: Verdict)
    ensures v.ok <==> tipo != []
    ensures v.alerts == if v.ok then [] else [TipoVacio]
  {
    if tipo == "" then Verdict(false, [TipoVacio]) else Verdict(true, [])
  }

  /** The length rule's boundary: two characters pass, one or none fail. */
  lemma LengthBoundary(s: string)
    ensures ValidarNombre(s).ok == ValidarApellidos(s).ok
    ensures |s| == 2 ==> ValidarNombre(s).ok
    ensures |s| <= 1 ==> !ValidarNombre(s).ok
  {
  }

  /** The age rule on decimal input: n followed by anything that does not
      continue the number passes exactly when n <= 120, so "30abc" and "3.9"
      pass and "121" fails; with a minus sign only "-0" passes. */
  lemma EdadDecimal(n: nat, tail: string)
    requires tail == [] || (!('0' <= tail[0] <= '9') && (n == 0 ==> tail[0] != 'x' && tail[0] != 'X'))
    ensures ValidarEdad(DecimalString(n) + tail).ok <==> n <= 120
    ensures ValidarEdad("-" + DecimalString(n) + tail).ok <==> n == 0
  {
    ParseDecimal(n, tail);
  }

  /** Text with no number in front fails the age rule: "" and "abc". */
  lemma EdadNonNumeric(s: string)
    requires s == [] || (!('0' <= s[0] <= '9') && !IsWhitespace(s[0]) && s[0] != '-' && s[0] != '+')
    ensures !ValidarEdad(s).ok
  {
    ParseNoDigits(s);
  }

  /** The same rule for a string built from a sign, a decimal spelling and
      a tail, as one statement about s. */
  lemma EdadOfDecimal(s: string, negative: bool, n: nat, tail: string)
    requires tail == [] || (!('0' <= tail[0] <= '9') && (n == 0 ==> tail[0] != 'x' && tail[0] != 'X'))
    requires s == (if negative then "-" else "") + DecimalString(n) + tail
    ensures ValidarEdad(s).ok <==> n <= 120 && (negative ==> n == 0)
  {
    EdadDecimal(n, tail);
    if !negative { assert s == DecimalString(n) + tail; }
  }

  /** The age examples: a number prefix decides ("30abc", "3.9"), both ends
      of the range pass ("0", "120"), and "-0" passes because -0 is not
      below 0; "0x10" passes as sixteen; "-1", "121", "abc" and "" fail. */
  lemma EdadExamples(s: string)
    ensures s in {"30abc", "3.9", "30x", "0", "120", "-0", "0x10"} ==> ValidarEdad(s).ok
    ensures s in {"-1", "121", "abc", ""} ==> !ValidarEdad(s).ok
  {
    if s == "30abc" { EdadOfDecimal(s, false, 30, "abc"); }
    else if s == "3.9" { EdadOfDecimal(s, false, 3, ".9"); }
    else if s == "30x" { EdadOfDecimal(s, false, 30, "x"); }
    else if s == "0" { EdadOfDecimal(s, false, 0, ""); }
    else if s == "120" { EdadOfDecimal(s, false, 120, ""); }
    else if s == "-0" { EdadOfDecimal(s, true, 0, ""); }
    else if s == "-1" { EdadOfDecimal(s, true, 1, ""); }
    else if s == "121" { EdadOfDecimal(s, false, 121, ""); }
    else if s == "0x10" { ParseHexExample(s); }
    else if s == "abc" || s == "" { EdadNonNumeric(s); }
  }
}
