/** validarFormulario: the submit handler shared by the registration form
    ("registro") and the bicycle-theft form ("robo"). It reads and trims the
    form's fields, runs every validator of that form without stopping at the
    first failure, and ends with one summary alert. The DOM is replaced by a
    map from control id to its raw value; each alert is appended to a log. */
module Formulario {
  import opened JsText
  import opened Validators

  /** The field rules, one per validator. */
  datatype Rule = Nombre | Apellidos | Edad | Email | Dia | Hora | TipoBici

  /** The id of the control a rule reads (querySelector("#" + id)). */
  function FieldId(r: Rule): string {
    match r
    case Nombre => "nombre"
    case Apellidos => "apellidos"
    case Edad => "edad"
    case Email => "email"
    case Dia => "dia"
    case Hora => "hora"
    case TipoBici => "tipo"
  }

  /** The alert a rule raises when it rejects its field. */
  function Message(r: Rule): Alert {
    match r
    case Nombre => NombreCorto
    case Apellidos => ApellidosCortos
    case Edad => EdadFueraDeRango
    case Email => EmailInvalido
    case Dia => DiaVacio
    case Hora => HoraVacia
    case TipoBici => TipoVacio
  }

  /** The validator behind a rule; it alerts with the rule's own message,
      once, exactly when it rejects. */
  function Check(r: Rule, value: string): (v: Verdict)
    ensures v.alerts == if v.ok then [] else [Message(r)]
  {
    match r
    case Nombre => ValidarNombre(value)
    case Apellidos => ValidarApellidos(value)
    case Edad => ValidarEdad(value)
    case Email => ValidarEmail(value)
    case Dia => ValidarDia(value)
    case Hora => ValidarHora(value)
    case TipoBici => ValidarTipo(value)
  }

  /** The rules each form kind runs, in the order the handler runs them,
      each at most once; any other kind runs none. */
  function RulesFor(tipo: string): (rules: seq<Rule>)
    ensures rules == [] <==> tipo != "registro" && tipo != "robo"
    ensures forall i, j :: 0 <= i < j < |rules| ==> rules[i] != rules[j]
  {
    if tipo == "registro" then [Nombre, Apellidos, Edad, Email]
    else if tipo == "robo" then [Dia, Hora, TipoBici]
    else []
  }

  /** Every control the rules read exists. */
  predicate Present(rules: seq<Rule>, campos: map<string, string>) {
    forall i :: 0 <= i < |rules| ==> FieldId(rules[i]) in campos
  }

  /** The first control, in reading order, that does not exist; reading its
      value is where the handler throws. */
  function FirstMissing(rules: seq<Rule>, campos: map<string, string>): (id: string)
    requires !Present(rules, campos)
    ensures id !in campos
    ensures exists i :: 0 <= i < |rules| && FieldId(rules[i]) == id && Present(rules[..i], campos)
  {
    if FieldId(rules[0]) !in campos then
      assert Present(rules[..0], campos);
      FieldId(rules[0])
    else
      var id := FirstMissing(rules[1..], campos);
      ghost var i :| 0 <= i < |rules[1..]| && FieldId(rules[1..][i]) == id && Present(rules[1..][..i], campos);
      ghost var before := rules[..i + 1];
      assert Present(before, campos) by {
        forall k | 0 <= k < |before| ensures FieldId(before[k]) in campos {
          if k > 0 { assert before[k] == rules[1..][..i][k - 1]; }
        }
      }
      id
  }

  /** The form as the handler sees it after reading: every control's value
      with String.prototype.trim applied. */
  function Trimmed(campos: map<string, string>): (t: map<string, string>)
    ensures t.Keys == campos.Keys
  {
    map id | id in campos :: Trim(campos[id])
  }

  /** The value a rule checks, taken from the trimmed form. */
  function Value(r: Rule, t: map<string, string>): string
    requires FieldId(r) in t
  {
    t[FieldId(r)]
  }

  /** Every rule accepts its field of the trimmed form t. */
  predicate AllPass(rules: seq<Rule>, t: map<string, string>)
    requires Present(rules, t)
  {
    forall i :: 0 <= i < |rules| ==> Check(rules[i], Value(rules[i], t)).ok
  }

  /** The alerts the rules raise on the trimmed form t, in rule order. */
  function Failures(rules: seq<Rule>, t: map<string, string>): seq<Alert>
    requires Present(rules, t)
  {
    if rules == [] then []
    else Check(rules[0], Value(rules[0], t)).alerts + Failures(rules[1..], t)
  }

  /** The closing alert: the success text when the flag held, the review
      text otherwise, each naming the form kind. */
  function Summary(tipo: string, valido: bool): (a: Alert)
    ensures (a.Enviado? <==> valido) && (a.Revisar? <==> !valido) && a.form == tipo
  {
    if valido then Enviado(tipo) else Revisar(tipo)
  }

  /** How a submission ends: with the flag and the alerts raised, or with
      the exception thrown when a control is missing (before any alert). */
  datatype Outcome = Submitted(valido: bool, alerts: seq<Alert>) | Threw(missing: string)

  /** The handler. It throws on the first missing control; otherwise the
      flag says whether every rule of the form passed, and the log is the
      failing rules' alerts in rule order followed by one summary. A kind
      other than "registro" and "robo" runs no rule and reports success. */
  method ValidarFormulario(tipo: string, campos: map<string, string>) returns (out: Outcome)
    ensures out.Threw? <==> !Present(RulesFor(tipo), campos)
    ensures out.Threw? ==> out.missing == FirstMissing(RulesFor(tipo), campos)
    ensures out.Submitted? ==> (out.valido <==> AllPass(RulesFor(tipo), Trimmed(campos)))
    ensures out.Submitted? ==>
      out.alerts == Failures(RulesFor(tipo), Trimmed(campos)) + [Summary(tipo, out.valido)]
    ensures tipo != "registro" && tipo != "robo" ==> out == Submitted(true, [Summary(tipo, true)])
  {
    var valido := true;
    var alerts: seq<Alert> := [];

    if tipo == "registro" {
      var run := RunRegistro(campos);
      if run.Threw? {
        return run;
      }
      valido, alerts := run.valido, run.alerts;
    }

    if tipo == "robo" {
      var run := RunRobo(campos);
      if run.Threw? {
        return run;
      }
      valido, alerts := run.valido, run.alerts;
    }

    if valido {
      alerts := alerts + [Summary(tipo, true)];
    } else {
      alerts := alerts + [Summary(tipo, false)];
    }
    return Submitted(valido, alerts);
  }

  /** The registration branch, up to the summary: read and trim the four
      controls in order, then run the four validators, each one whether or
      not an earlier one failed, clearing the flag on each failure. */
  method RunRegistro(campos: map<string, string>) returns (out: Outcome)
    ensures out.Threw? <==> !Present(RulesFor("registro"), campos)
    ensures out.Threw? ==> out.missing == FirstMissing(RulesFor("registro"), campos)
    ensures out.Submitted? ==> (out.valido <==> AllPass(RulesFor("registro"), Trimmed(campos)))
    ensures out.Submitted? ==> out.alerts == Failures(RulesFor("registro"), Trimmed(campos))
  {
    RegistroReads(campos);
    if "nombre" !in campos {
      return Threw("nombre");
    }
    var nombre := Trim(campos["nombre"]);
    if "apellidos" !in campos {
      return Threw("apellidos");
    }
    var apellidos := Trim(campos["apellidos"]);
    if "edad" !in campos {
      return Threw("edad");
    }
    var edad := Trim(campos["edad"]);
    if "email" !in campos {
      return Threw("email");
    }
    var email := Trim(campos["email"]);

    var valido := true;
    var alerts: seq<Alert> := [];
    var v := ValidarNombre(nombre);
    if !v.ok { valido := false; }
    alerts := alerts + v.alerts;
    assert alerts == ValidarNombre(nombre).alerts;
    v := ValidarApellidos(apellidos);
    if !v.ok { valido := false; }
    alerts := alerts + v.alerts;
    v := ValidarEdad(edad);
    if !v.ok { valido := false; }
    alerts := alerts + v.alerts;
    v := ValidarEmail(email);
    if !v.ok { valido := false; }
    alerts := alerts + v.alerts;

    RegistroRules(Trimmed(campos), nombre, apellidos, edad, email);
    return Submitted(valido, alerts);
  }

  /** The theft-report branch, up to the summary: read and trim the day,
      time and bicycle-type controls, then run their three validators. */
  method RunRobo(campos: map<string, string>) returns (out: Outcome)
    ensures out.Threw? <==> !Present(RulesFor("robo"), campos)
    ensures out.Threw? ==> out.missing == FirstMissing(RulesFor("robo"), campos)
    ensures out.Submitted? ==> (out.valido <==> AllPass(RulesFor("robo"), Trimmed(campos)))
    ensures out.Submitted? ==> out.alerts == Failures(RulesFor("robo"), Trimmed(campos))
  {
    RoboReads(campos);
    if "dia" !in campos {
      return Threw("dia");
    }
    var dia := Trim(campos["dia"]);
    if "hora" !in campos {
      return Threw("hora");
    }
    var hora := Trim(campos["hora"]);
    if "tipo" !in campos {
      return Threw("tipo");
    }
    var tipoBici := Trim(campos["tipo"]);

    var valido := true;
    var alerts: seq<Alert> := [];
    var v := ValidarDia(dia);
    if !v.ok { valido := false; }
    alerts := alerts + v.alerts;
    assert alerts == ValidarDia(dia).alerts;
    v := ValidarHora(hora);
    if !v.ok { valido := false; }
    alerts := alerts + v.alerts;
    v := ValidarTipo(tipoBici);
    if !v.ok { valido := false; }
    alerts := alerts + v.alerts;

    RoboRules(Trimmed(campos), dia, hora, tipoBici);
    return Submitted(valido, alerts);
  }

  /** When the controls before index k exist and the k-th does not, the
      k-th is where reading stops. */
  lemma {:induction false} FirstMissingAt(rules: seq<Rule>, campos: map<string, string>, k: nat)
    requires k < |rules| && Present(rules[..k], campos) && FieldId(rules[k]) !in campos
    ensures !Present(rules, campos)
    ensures FirstMissing(rules, campos) == FieldId(rules[k])
  {
    if k > 0 {
      assert rules[0] == rules[..k][0];
      var before := rules[1..][..k - 1];
      assert Present(before, campos) by {
        forall j | 0 <= j < |before| ensures FieldId(before[j]) in campos {
          assert before[j] == rules[..k][j + 1];
        }
      }
      FirstMissingAt(rules[1..], campos, k - 1);
    }
  }

  /** Running the first rule puts its verdict in front of the rest's. */
  lemma RunFirst(rules: seq<Rule>, t: map<string, string>, v: Verdict)
    requires rules != [] && FieldId(rules[0]) in t && Present(rules[1..], t)
    requires v == Check(rules[0], Value(rules[0], t))
    ensures Present(rules, t)
    ensures AllPass(rules, t) <==> v.ok && AllPass(rules[1..], t)
    ensures Failures(rules, t) == v.alerts + Failures(rules[1..], t)
  {
    var tail := rules[1..];
    assert Present(rules, t) by {
      forall i | 0 <= i < |rules| ensures FieldId(rules[i]) in t {
        if i > 0 { assert rules[i] == tail[i - 1]; }
      }
    }
    if v.ok && AllPass(tail, t) {
      forall i | 0 <= i < |rules| ensures Check(rules[i], Value(rules[i], t)).ok {
        if i > 0 { assert rules[i] == tail[i - 1]; }
      }
    }
    if AllPass(rules, t) {
      forall i | 0 <= i < |tail| ensures Check(tail[i], Value(tail[i], t)).ok {
        assert tail[i] == rules[i + 1];
      }
    }
  }

  /** Which control the registration branch stops at: the first of
      nombre, apellidos, edad and email that is missing. */
  lemma RegistroReads(campos: map<string, string>)
    ensures Present(RulesFor("registro"), campos) <==>
      "nombre" in campos && "apellidos" in campos && "edad" in campos && "email" in campos
    ensures "nombre" !in campos ==> FirstMissing(RulesFor("registro"), campos) == "nombre"
    ensures "nombre" in campos && "apellidos" !in campos ==>
      FirstMissing(RulesFor("registro"), campos) == "apellidos"
    ensures "nombre" in campos && "apellidos" in campos && "edad" !in campos ==>
      FirstMissing(RulesFor("registro"), campos) == "edad"
    ensures "nombre" in campos && "apellidos" in campos && "edad" in campos && "email" !in campos ==>
      FirstMissing(RulesFor("registro"), campos) == "email"
  {
    var rules := RulesFor("registro");
    assert rules == [Nombre, Apellidos, Edad, Email];
    if "nombre" !in campos {
      FirstMissingAt(rules, campos, 0);
    } else if "apellidos" !in campos {
      FirstMissingAt(rules, campos, 1);
    } else if "edad" !in campos {
      FirstMissingAt(rules, campos, 2);
    } else if "email" !in campos {
      FirstMissingAt(rules, campos, 3);
    }
  }

  /** Which control the theft-report branch stops at: the first of dia,
      hora and tipo that is missing. */
  lemma RoboReads(campos: map<string, string>)
    ensures Present(RulesFor("robo"), campos) <==> "dia" in campos && "hora" in campos && "tipo" in campos
    ensures "dia" !in campos ==> FirstMissing(RulesFor("robo"), campos) == "dia"
    ensures "dia" in campos && "hora" !in campos ==> FirstMissing(RulesFor("robo"), campos) == "hora"
    ensures "dia" in campos && "hora" in campos && "tipo" !in campos ==>
      FirstMissing(RulesFor("robo"), campos) == "tipo"
  {
    var rules := RulesFor("robo");
    assert rules == [Dia, Hora, TipoBici];
    if "dia" !in campos {
      FirstMissingAt(rules, campos, 0);
    } else if "hora" !in campos {
      FirstMissingAt(rules, campos, 1);
    } else if "tipo" !in campos {
      FirstMissingAt(rules, campos, 2);
    }
  }

  /** What the registration rules require and report, in terms of the
      four trimmed values the handler holds. */
  lemma RegistroRules(t: map<string, string>, nombre: string, apellidos: string, edad: string, email: string)
    requires "nombre" in t && "apellidos" in t && "edad" in t && "email" in t
    requires nombre == t["nombre"] && apellidos == t["apellidos"] && edad == t["edad"] && email == t["email"]
    ensures Present(RulesFor("registro"), t)
    ensures AllPass(RulesFor("registro"), t) <==>
      ValidarNombre(nombre).ok && ValidarApellidos(apellidos).ok && ValidarEdad(edad).ok && ValidarEmail(email).ok
    ensures Failures(RulesFor("registro"), t) ==
      ValidarNombre(nombre).alerts + ValidarApellidos(apellidos).alerts
      + ValidarEdad(edad).alerts + ValidarEmail(email).alerts
  {
    var rules := RulesFor("registro");
    assert rules == [Nombre, Apellidos, Edad, Email];
    assert rules[1..] == [Apellidos, Edad, Email];
    assert rules[2..] == rules[1..][1..] == [Edad, Email];
    assert rules[3..] == rules[2..][1..] == [Email];
    assert rules[3..][1..] == [];
    var a, b, c, d := ValidarNombre(nombre), ValidarApellidos(apellidos), ValidarEdad(edad), ValidarEmail(email);
    RunFirst(rules[3..], t, d);
    RunFirst(rules[2..], t, c);
    RunFirst(rules[1..], t, b);
    RunFirst(rules, t, a);
    assert Failures(rules[3..], t) == d.alerts by { assert d.alerts + [] == d.alerts; }
    AppendAssoc(a.alerts, b.alerts, c.alerts + d.alerts);
    AppendAssoc(a.alerts + b.alerts, c.alerts, d.alerts);
  }

  /** What the theft-report rules require and report, in terms of the three
      trimmed values the handler holds. */
  lemma RoboRules(t: map<string, string>, dia: string, hora: string, tipoBici: string)
    requires "dia" in t && "hora" in t && "tipo" in t
    requires dia == t["dia"] && hora == t["hora"] && tipoBici == t["tipo"]
    ensures Present(RulesFor("robo"), t)
    ensures AllPass(RulesFor("robo"), t) <==>
      ValidarDia(dia).ok && ValidarHora(hora).ok && ValidarTipo(tipoBici).ok
    ensures Failures(RulesFor("robo"), t) ==
      ValidarDia(dia).alerts + ValidarHora(hora).alerts + ValidarTipo(tipoBici).alerts
  {
    var rules := RulesFor("robo");
    assert rules == [Dia, Hora, TipoBici];
    assert rules[1..] == [Hora, TipoBici];
    assert rules[2..] == rules[1..][1..] == [TipoBici];
    assert rules[2..][1..] == [];
    var a, b, c := ValidarDia(dia), ValidarHora(hora), ValidarTipo(tipoBici);
    RunFirst(rules[2..], t, c);
    RunFirst(rules[1..], t, b);
    RunFirst(rules, t, a);
    assert Failures(rules[2..], t) == c.alerts by { assert c.alerts + [] == c.alerts; }
    AppendAssoc(a.alerts, b.alerts, c.alerts);
  }

  lemma AppendAssoc(a: seq<Alert>, b: seq<Alert>, c: seq<Alert>)
    ensures a + (b + c) == a + b + c
  {
  }

  /** No alert before the summary exactly when every rule passed. */
  lemma {:induction false} FailuresEmptyIffAllPass(rules: seq<Rule>, t: map<string, string>)
    requires Present(rules, t)
    ensures Failures(rules, t) == [] <==> AllPass(rules, t)
  {
    if rules != [] {
      var tail := rules[1..];
      assert Present(tail, t) by {
        forall j | 0 <= j < |tail| ensures FieldId(tail[j]) in t {
          assert tail[j] == rules[j + 1];
        }
      }
      FailuresEmptyIffAllPass(tail, t);
      RunFirst(rules, t, Check(rules[0], Value(rules[0], t)));
    }
  }

  /** The seven rules' alerts are all different. */
  lemma MessagesDistinct(r1: Rule, r2: Rule)
    ensures Message(r1) == Message(r2) <==> r1 == r2
  {
  }

  /** The seven rules' alert texts are all different too: the words on
      screen tell which rule failed. */
  lemma MessageTextsDistinct(r1: Rule, r2: Rule)
    ensures Text(Message(r1)) == Text(Message(r2)) <==> r1 == r2
  {
    MessageTextLength(r1);
    MessageTextLength(r2);
  }

  /** The alert texts have seven different lengths. */
  lemma MessageTextLength(r: Rule)
    ensures |Text(Message(r))| ==
      match r
      case Nombre => 43
      case Apellidos => 48
      case Edad => 33
      case Email => 35
      case Dia => 25
      case Hora => 23
      case TipoBici => 39
  {
  }

  /** The log names exactly the rules that failed: a rule's alert is in
      Failures iff the rule is run and rejects its field. */
  lemma {:induction false} FailuresNameFailedRules(rules: seq<Rule>, t: map<string, string>, r: Rule)
    requires Present(rules, t)
    ensures Message(r) in Failures(rules, t) <==> r in rules && !Check(r, Value(r, t)).ok
  {
    if rules != [] {
      var tail := rules[1..];
      assert Present(tail, t) by {
        forall j | 0 <= j < |tail| ensures FieldId(tail[j]) in t {
          assert tail[j] == rules[j + 1];
        }
      }
      FailuresNameFailedRules(tail, t, r);
      MessagesDistinct(rules[0], r);
      assert r in rules <==> r == rules[0] || r in tail;
    }
  }

  /** Every rule rejects the empty string. */
  lemma EveryRuleRejectsEmpty(r: Rule)
    ensures !Check(r, "").ok
  {
    if r == Edad {
      EdadNonNumeric("");
    }
  }

  /** Because the handler trims before validating, a control holding only
      white space fails its rule, whatever the rule. */
  lemma BlankControlFails(r: Rule, t: map<string, string>, campos: map<string, string>)
    requires t == Trimmed(campos) && FieldId(r) in campos && AllWhitespace(campos[FieldId(r)])
    ensures !Check(r, Value(r, t)).ok
  {
    TrimEmptyIff(campos[FieldId(r)]);
    EveryRuleRejectsEmpty(r);
  }

  /** White space around a control's value never changes its verdict: the
      rule sees the value with the padding removed. */
  lemma PaddingIgnored(r: Rule, p: string, m: string, q: string)
    requires AllWhitespace(p) && AllWhitespace(q) && Tight(m)
    ensures Check(r, Trim(p + m + q)) == Check(r, m)
  {
    TrimOfPadded(p, m, q);
  }
}
