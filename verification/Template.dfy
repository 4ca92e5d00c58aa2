/** Environment substitution in the config file (src/config/loader.rs).

    `ExpandEnvVars` is the scanner.  Templates (`Piece`) with their meaning `Eval` and their
    concrete form `Print` are the reference: the scanner inverts the printer. */
module Template {
  import opened Basics

  datatype Error = EmptyName | Unset(name: string)
  datatype Result = Ok(text: string) | Err(error: Error)

  type Env = map<string, string>

  datatype Piece = Lit(text: string) | Var(name: string) | VarOr(name: string, default: string)

  // ---- trimming ----

  /** The White_Space property of Unicode, which str::trim uses. */
  predicate IsSpace(c: char) {
    || '\U{0009}' <= c <= '\U{000D}' || c == '\U{0020}' || c == '\U{0085}' || c == '\U{00A0}' || c == '\U{1680}'
    || '\U{2000}' <= c <= '\U{200A}' || c == '\U{2028}' || c == '\U{2029}' || c == '\U{202F}' || c == '\U{205F}'
    || c == '\U{3000}'
  }

  /** The white space characters, by code point. */
  lemma SpaceCodes(c: char)
    ensures var code := c as int;
      IsSpace(c) <==>
        code in {9, 10, 11, 12, 13, 32, 133, 160, 5760, 8232, 8233, 8239, 8287, 12288} || 8192 <= code <= 8202
  {}

  function Trim(s: string): string {
    if s == [] then []
    else if IsSpace(s[0]) then Trim(s[1..])
    else if IsSpace(s[|s| - 1]) then Trim(s[..|s| - 1])
    else s
  }

  predicate Trimmed(s: string) {
    s != [] && !IsSpace(s[0]) && !IsSpace(s[|s| - 1])
  }

  // ---- reference meaning ----

  /** The value of a reference: the environment's, else the trimmed default, else an error. */
  function Value(name: string, default: Option<string>, env: Env): Result {
    if Trim(name) == [] then Err(EmptyName)
    else if Trim(name) in env then Ok(env[Trim(name)])
    else if default.Some? then Ok(Trim(default.value))
    else Err(Unset(Trim(name)))
  }

  function Prepend(text: string, r: Result): Result {
    if r.Ok? then Ok(text + r.text) else r
  }

  function PieceValue(p: Piece, env: Env): Result {
    match p
    case Lit(text) => Ok(text)
    case Var(name) => Value(name, None, env)
    case VarOr(name, default) => Value(name, Some(default), env)
  }

  function Eval(pieces: seq<Piece>, env: Env): Result {
    if pieces == [] then Ok([]) else
      var v := PieceValue(pieces[0], env);
      if v.Err? then v else Prepend(v.text, Eval(pieces[1..], env))
  }

  function PrintPiece(p: Piece): string {
    match p
    case Lit(text) => text
    case Var(name) => "${" + name + "}"
    case VarOr(name, default) => "${" + name + ":-" + default + "}"
  }

  function Print(pieces: seq<Piece>): string {
    if pieces == [] then [] else PrintPiece(pieces[0]) + Print(pieces[1..])
  }

  // ---- the scanner, as a function ----

  /** What the inner loop reads after "${": name, default and the unread rest. */
  datatype Reference = Reference(name: string, default: Option<string>, rest: string)

  predicate OpensDefault(s: string) {
    |s| >= 2 && s[0] == ':' && s[1] == '-'
  }

  function ScanDefault(s: string, name: string, default: Option<string>): Reference
    ensures |ScanDefault(s, name, default).rest| <= |s|
  {
    if s == [] then Reference(name, default, [])
    else if s[0] == '}' then Reference(name, default, s[1..])
    else ScanDefault(s[1..], name, Some((if default.Some? then default.value else []) + [s[0]]))
  }

  function ScanName(s: string, name: string): Reference
    ensures |ScanName(s, name).rest| <= |s|
  {
    if s == [] then Reference(name, None, [])
    else if s[0] == '}' then Reference(name, None, s[1..])
    else if OpensDefault(s) then ScanDefault(s[2..], name, None)
    else ScanName(s[1..], name + [s[0]])
  }

  predicate OpensReference(s: string) {
    |s| >= 2 && s[0] == '$' && s[1] == '{'
  }

  function Expand(s: string, env: Env): Result
    decreases |s|
  {
    if s == [] then Ok([])
    else if OpensReference(s) then
      var ref := ScanName(s[2..], []);
      var v := Value(ref.name, ref.default, env);
      if v.Err? then v else Prepend(v.text, Expand(ref.rest, env))
    else Prepend([s[0]], Expand(s[1..], env))
  }

  // ---- the scanner, as the loops of the source ----

  /** The inner loop: reads a reference up to its "}", or to the end of the input. */
  method ReadReference(input: string, start: nat) returns (name: string, default: Option<string>, next: nat)
    requires start <= |input|
    ensures start <= next <= |input|
    ensures ScanName(input[start..], []) == Reference(name, default, input[next..])
  {
    name, default, next := [], None, start;
    var inDefault := false;
    while next < |input|
      invariant start <= next <= |input|
      invariant !inDefault ==> default.None? && ScanName(input[start..], []) == ScanName(input[next..], name)
      invariant inDefault ==> ScanName(input[start..], []) == ScanDefault(input[next..], name, default)
    {
      var c := input[next];
      assert input[next..][1..] == input[next + 1..];
      next := next + 1;
      if c == '}' {
        return;
      }
      if c == ':' && next < |input| && input[next] == '-' && !inDefault {
        assert input[next - 1..][2..] == input[next + 1..];
        next := next + 1;
        inDefault := true;
        continue;
      }
      if inDefault {
        default := Some((if default.Some? then default.value else []) + [c]);
      } else {
        name := name + [c];
      }
    }
  }

  method ExpandEnvVars(input: string, env: Env) returns (r: Result)
    ensures r == Expand(input, env)
  {
    var result: string := [];
    var i := 0;
    while i < |input|
      invariant 0 <= i <= |input|
      invariant Expand(input, env) == Prepend(result, Expand(input[i..], env))
    {
      var ch := input[i];
      ghost var unread := input[i..];
      i := i + 1;
      if ch == '$' && i < |input| && input[i] == '{' {
        i := i + 1;
        assert OpensReference(unread) && unread[2..] == input[i..];
        var name, default, next := ReadReference(input, i);
        i := next;
        var key := Trim(name);
        if key == [] {
          return Err(EmptyName);
        }
        if key in env {
          PrependTwice(result, env[key], Expand(input[i..], env));
          result := result + env[key];
        } else if default.Some? {
          PrependTwice(result, Trim(default.value), Expand(input[i..], env));
          result := result + Trim(default.value);
        } else {
          return Err(Unset(key));
        }
      } else {
        assert unread[1..] == input[i..];
        PrependTwice(result, [ch], Expand(input[i..], env));
        result := result + [ch];
      }
    }
    assert input[i..] == [];
    r := Ok(result);
  }

  lemma PrependTwice(a: string, b: string, r: Result)
    ensures Prepend(a, Prepend(b, r)) == Prepend(a + b, r)
  {
    if r.Ok? { assert a + (b + r.text) == a + b + r.text; }
  }

  // ---- the scanner inverts the printer ----

  /** The characters a and b occur next to each other. */
  ghost predicate Adjacent(s: string, a: char, b: char) {
    exists i :: 0 <= i < |s| - 1 && s[i] == a && s[i + 1] == b
  }

  ghost predicate WellFormedPiece(p: Piece) {
    match p
    case Lit(text) => text != [] && !Adjacent(text, '$', '{')
    case Var(name) => Trimmed(name) && '}' !in name && !Adjacent(name, ':', '-')
    case VarOr(name, default) =>
      Trimmed(name) && '}' !in name && !Adjacent(name, ':', '-') && '}' !in default
  }

  /** Literals are merged: no literal follows another. */
  ghost predicate WellFormed(pieces: seq<Piece>) {
    && (forall i :: 0 <= i < |pieces| ==> WellFormedPiece(pieces[i]))
    && (forall i :: 0 < i < |pieces| ==> !(pieces[i - 1].Lit? && pieces[i].Lit?))
  }

  lemma AdjacentTail(s: string, a: char, b: char)
    requires s != [] && !Adjacent(s, a, b)
    ensures !Adjacent(s[1..], a, b)
  {
    forall i | 0 <= i < |s[1..]| - 1
      ensures !(s[1..][i] == a && s[1..][i + 1] == b)
    {
      assert !(s[i + 1] == a && s[i + 1 + 1] == b);
    }
  }

  lemma {:induction false} ScanDefaultInverts(text: string, name: string, default: Option<string>, rest: string)
    requires '}' !in text
    ensures ScanDefault(text + "}" + rest, name, default)
         == Reference(name, if text == [] then default else Some((if default.Some? then default.value else []) + text), rest)
    decreases text
  {
    var s := text + "}" + rest;
    if text == [] {
      assert s[0] == '}' && s[1..] == rest;
    } else {
      assert s[0] == text[0] && s[1..] == text[1..] + "}" + rest;
      var so := if default.Some? then default.value else [];
      ScanDefaultInverts(text[1..], name, Some(so + [text[0]]), rest);
      assert so + [text[0]] + text[1..] == so + text;
      assert text[1..] == [] ==> so + [text[0]] == so + text;
    }
  }

  lemma {:induction false} ScanNameInverts(text: string, name: string, rest: string)
    requires '}' !in text && !Adjacent(text, ':', '-')
    ensures ScanName(text + "}" + rest, name) == Reference(name + text, None, rest)
    decreases text
  {
    var s := text + "}" + rest;
    if text == [] {
      assert s[0] == '}' && s[1..] == rest;
    } else {
      assert s[0] == text[0] && s[1..] == text[1..] + "}" + rest;
      assert !OpensDefault(s) by { assert |text| >= 2 ==> !(text[0] == ':' && text[0 + 1] == '-'); }
      AdjacentTail(text, ':', '-');
      ScanNameInverts(text[1..], name + [text[0]], rest);
      assert name + [text[0]] + text[1..] == name + text;
    }
  }

  lemma {:induction false} ScanNameThenDefault(text: string, name: string, tail: string)
    requires '}' !in text && !Adjacent(text, ':', '-')
    ensures ScanName(text + ":-" + tail, name) == ScanDefault(tail, name + text, None)
    decreases text
  {
    var s := text + ":-" + tail;
    if text == [] {
      assert OpensDefault(s) && s[2..] == tail && name + text == name;
    } else {
      assert s[0] == text[0] && s[1..] == text[1..] + ":-" + tail;
      assert !OpensDefault(s) by {
        assert |text| >= 2 ==> s[1] == text[1] && !(text[0] == ':' && text[0 + 1] == '-');
        assert |text| == 1 ==> s[1] == ':';
      }
      AdjacentTail(text, ':', '-');
      ScanNameThenDefault(text[1..], name + [text[0]], tail);
      assert name + [text[0]] + text[1..] == name + text;
    }
  }

  /** A literal passes through, unless its last "$" meets a "{" that follows it. */
  lemma {:induction false} ExpandLiteral(text: string, rest: string, env: Env)
    requires !Adjacent(text, '$', '{')
    requires rest == [] || rest[0] != '{'
    ensures Expand(text + rest, env) == Prepend(text, Expand(rest, env))
    decreases text
  {
    var s := text + rest;
    if text == [] {
      assert s == rest;
    } else {
      assert s[0] == text[0] && s[1..] == text[1..] + rest;
      assert !OpensReference(s) by {
        assert |text| >= 2 ==> s[1] == text[1] && !(text[0] == '$' && text[0 + 1] == '{');
        assert |text| == 1 && rest != [] ==> s[1] == rest[0];
      }
      AdjacentTail(text, '$', '{');
      ExpandLiteral(text[1..], rest, env);
      PrependTwice([text[0]], text[1..], Expand(rest, env));
      assert [text[0]] + text[1..] == text;
    }
  }

  lemma TrimTrimmed(s: string)
    requires Trimmed(s)
    ensures Trim(s) == s
  {}

  lemma ScanVar(name: string, rest: string)
    requires WellFormedPiece(Var(name))
    ensures OpensReference(PrintPiece(Var(name)) + rest)
    ensures ScanName((PrintPiece(Var(name)) + rest)[2..], []) == Reference(name, None, rest)
  {
    assert (PrintPiece(Var(name)) + rest)[2..] == name + "}" + rest;
    ScanNameInverts(name, [], rest);
    assert [] + name == name;
  }

  lemma ScanVarOr(name: string, default: string, rest: string)
    requires WellFormedPiece(VarOr(name, default))
    ensures OpensReference(PrintPiece(VarOr(name, default)) + rest)
    ensures ScanName((PrintPiece(VarOr(name, default)) + rest)[2..], []) ==
      Reference(name, if default == [] then None else Some(default), rest)
  {
    var tail := default + "}" + rest;
    assert (PrintPiece(VarOr(name, default)) + rest)[2..] == name + ":-" + tail;
    ScanNameThenDefault(name, [], tail);
    assert [] + name == name && [] + default == default;
    ScanDefaultInverts(default, name, None, rest);
  }

  /** How the scanner reads a piece: an empty default counts as none. */
  function AsRead(p: Piece): Piece {
    if p.VarOr? && p.default == [] then Var(p.name) else p
  }

  function AllAsRead(pieces: seq<Piece>): seq<Piece> {
    if pieces == [] then [] else [AsRead(pieces[0])] + AllAsRead(pieces[1..])
  }

  lemma ExpandReference(p: Piece, rest: string, env: Env)
    requires WellFormedPiece(p) && !p.Lit?
    ensures Expand(PrintPiece(p) + rest, env) ==
      var v := PieceValue(AsRead(p), env); if v.Err? then v else Prepend(v.text, Expand(rest, env))
  {
    if p.Var? { ScanVar(p.name, rest); } else { ScanVarOr(p.name, p.default, rest); }
  }

  /** MAIN RESULT: expanding a printed template is evaluating it as it is read; substituted
      text is not expanded again. */
  lemma {:induction false} RoundTrip(pieces: seq<Piece>, env: Env)
    requires WellFormed(pieces)
    ensures Expand(Print(pieces), env) == Eval(AllAsRead(pieces), env)
    decreases pieces
  {
    if pieces != [] {
      var p, rest := pieces[0], pieces[1..];
      RoundTrip(rest, env);
      assert AllAsRead(pieces)[1..] == AllAsRead(rest);
      match p {
        case Lit(text) =>
          if rest != [] {
            assert Print(rest)[0] == '$' by { assert !rest[0].Lit?; }
          }
          ExpandLiteral(text, Print(rest), env);
        case Var(_) => ExpandReference(p, Print(rest), env);
        case VarOr(_, _) => ExpandReference(p, Print(rest), env);
      }
    }
  }

  /** The first variable, in order, that is unset and has no default. */
  function FirstUnset(pieces: seq<Piece>, env: Env): Option<string> {
    if pieces == [] then None
    else if pieces[0].Var? && pieces[0].name !in env then Some(pieces[0].name)
    else FirstUnset(pieces[1..], env)
  }

  lemma TrimmedPiece(p: Piece, env: Env)
    requires WellFormedPiece(p)
    ensures WellFormedPiece(AsRead(p))
    ensures PieceValue(p, env).Err? <==> p.Var? && p.name !in env
    ensures p.Var? && p.name !in env ==> PieceValue(p, env) == Err(Unset(p.name))
  {
    if !p.Lit? { TrimTrimmed(p.name); }
  }

  lemma {:induction false} EvalFails(pieces: seq<Piece>, env: Env)
    requires forall i :: 0 <= i < |pieces| ==> WellFormedPiece(pieces[i])
    ensures Eval(pieces, env).Err? <==> FirstUnset(pieces, env).Some?
    ensures Eval(pieces, env).Err? ==> Eval(pieces, env) == Err(Unset(FirstUnset(pieces, env).value))
    decreases pieces
  {
    if pieces != [] {
      TrimmedPiece(pieces[0], env);
      EvalFails(pieces[1..], env);
    }
  }

  lemma {:induction false} ReadWellFormed(pieces: seq<Piece>, env: Env)
    requires forall i :: 0 <= i < |pieces| ==> WellFormedPiece(pieces[i])
    ensures |AllAsRead(pieces)| == |pieces|
    ensures forall i :: 0 <= i < |pieces| ==> AllAsRead(pieces)[i] == AsRead(pieces[i]) && WellFormedPiece(AllAsRead(pieces)[i])
    decreases pieces
  {
    if pieces != [] {
      TrimmedPiece(pieces[0], env);
      ReadWellFormed(pieces[1..], env);
    }
  }

  /** If nothing unset is read, reading changes no value. */
  lemma {:induction false} SameWhenSet(pieces: seq<Piece>, env: Env)
    requires forall i :: 0 <= i < |pieces| ==> WellFormedPiece(pieces[i])
    requires FirstUnset(AllAsRead(pieces), env).None?
    ensures FirstUnset(pieces, env).None? && Eval(AllAsRead(pieces), env) == Eval(pieces, env)
    decreases pieces
  {
    if pieces != [] {
      assert AllAsRead(pieces)[1..] == AllAsRead(pieces[1..]);
      SameWhenSet(pieces[1..], env);
      if !pieces[0].Lit? { TrimTrimmed(pieces[0].name); }
    }
  }

  /** MAIN RESULT (exact condition): expanding a printed template is evaluating it as it was
      written if and only if empty defaults do not change the first variable that is
      missing; in particular whenever no default is empty, or every variable is set. */
  lemma RoundTripExactly(pieces: seq<Piece>, env: Env)
    requires WellFormed(pieces)
    ensures Expand(Print(pieces), env) == Eval(pieces, env) <==>
      FirstUnset(AllAsRead(pieces), env) == FirstUnset(pieces, env)
  {
    RoundTrip(pieces, env);
    ReadWellFormed(pieces, env);
    EvalFails(pieces, env);
    EvalFails(AllAsRead(pieces), env);
    if FirstUnset(AllAsRead(pieces), env).None? { SameWhenSet(pieces, env); }
  }

  /** For one reference: it is expanded as written unless its default is empty and its
      variable unset, whatever the name and the default. */
  lemma EmptyDefaultExactly(name: string, default: string, env: Env)
    requires WellFormedPiece(VarOr(name, default))
    ensures var p := VarOr(name, default);
      && (Expand(PrintPiece(p), env) == PieceValue(p, env) <==> default != [] || name in env)
      && (default == [] && name !in env ==> Expand(PrintPiece(p), env) == Err(Unset(name)))
  {
    var p := VarOr(name, default);
    assert PrintPiece(p) + [] == PrintPiece(p);
    ExpandReference(p, [], env);
    TrimTrimmed(name);
    assert Expand([], env) == Ok([]);
    var v := PieceValue(AsRead(p), env);
    if v.Ok? { assert v.text + [] == v.text; }
  }

  /** It fails exactly when some reference without default, or with an empty one, names an
      unset variable. */
  lemma FailsExactlyWhenUnset(pieces: seq<Piece>, env: Env)
    requires WellFormed(pieces)
    ensures Expand(Print(pieces), env).Err? <==>
      exists i :: 0 <= i < |pieces| && AsRead(pieces[i]).Var? && pieces[i].name !in env
  {
    RoundTrip(pieces, env);
    ReadWellFormed(pieces, env);
    EvalFails(AllAsRead(pieces), env);
    UnsetSomewhere(AllAsRead(pieces), env);
    if i :| 0 <= i < |pieces| && AsRead(pieces[i]).Var? && pieces[i].name !in env {
      assert AllAsRead(pieces)[i].Var?;
    }
  }

  lemma {:induction false} UnsetSomewhere(pieces: seq<Piece>, env: Env)
    ensures FirstUnset(pieces, env).Some? <==> exists i :: 0 <= i < |pieces| && pieces[i].Var? && pieces[i].name !in env
    decreases pieces
  {
    if pieces != [] {
      var rest := pieces[1..];
      UnsetSomewhere(rest, env);
      if i :| 0 <= i < |pieces| && pieces[i].Var? && pieces[i].name !in env {
        assert i > 0 ==> rest[i - 1] == pieces[i];
      }
    }
  }

  // ---- values ----

  ghost predicate AllSpace(s: string) {
    forall k :: 0 <= k < |s| ==> IsSpace(s[k])
  }

  /** `t` is `s` without the white space at its two ends. */
  ghost predicate IsStripped(s: string, t: string) {
    && (exists a, b :: AllSpace(a) && AllSpace(b) && s == a + t + b)
    && (t == [] || (!IsSpace(t[0]) && !IsSpace(t[|t| - 1])))
  }

  lemma {:induction false} TrimStrips(s: string)
    ensures IsStripped(s, Trim(s))
  {
    if s != [] && IsSpace(s[0]) {
      TrimStrips(s[1..]);
      var a, b :| AllSpace(a) && AllSpace(b) && s[1..] == a + Trim(s) + b;
      SpaceBefore(s, a, Trim(s), b);
    } else if s != [] && IsSpace(s[|s| - 1]) {
      TrimStrips(s[..|s| - 1]);
      var a, b :| AllSpace(a) && AllSpace(b) && s[..|s| - 1] == a + Trim(s) + b;
      SpaceAfter(s, a, Trim(s), b);
    } else {
      assert s == [] + s + [] && AllSpace([]);
    }
  }

  lemma SpaceBefore(s: string, a: string, t: string, b: string)
    requires s != [] && IsSpace(s[0]) && AllSpace(a) && AllSpace(b) && s[1..] == a + t + b
    ensures exists a', b' :: AllSpace(a') && AllSpace(b') && s == a' + t + b'
  {
    var a' := [s[0]] + a;
    assert AllSpace(a');
    assert s == a' + t + b;
  }

  lemma SpaceAfter(s: string, a: string, t: string, b: string)
    requires s != [] && IsSpace(s[|s| - 1]) && AllSpace(a) && AllSpace(b) && s[..|s| - 1] == a + t + b
    ensures exists a', b' :: AllSpace(a') && AllSpace(b') && s == a' + t + b'
  {
    var b' := b + [s[|s| - 1]];
    assert AllSpace(b');
    assert s == a + t + b';
  }

  /** Text before and after a reference. */
  ghost predicate Around(before: string, value: string, after: string, env: Env, r: Result) {
    match Expand(after, env)
    case Ok(text) => r == Ok(before + value + text)
    case Err(e) => r == Err(e)
  }

  lemma ReferenceWithin(before: string, p: Piece, after: string, env: Env, value: string)
    requires WellFormedPiece(p) && !p.Lit? && PieceValue(AsRead(p), env) == Ok(value) && !Adjacent(before, '$', '{')
    ensures Around(before, value, after, env, Expand(before + PrintPiece(p) + after, env))
  {
    ExpandLiteral(before, PrintPiece(p) + after, env);
    assert before + (PrintPiece(p) + after) == before + PrintPiece(p) + after;
    ExpandReference(p, after, env);
    PrependTwice(before, value, Expand(after, env));
  }

  /** MAIN RESULT (values): a set variable is replaced by its value, whatever its default,
      between any text before it and whatever follows. */
  lemma SetVariableWins(before: string, name: string, default: string, after: string, env: Env)
    requires WellFormedPiece(VarOr(name, default)) && name in env && !Adjacent(before, '$', '{')
    ensures Around(before, env[name], after, env, Expand(before + ("${" + name + "}") + after, env))
    ensures Around(before, env[name], after, env, Expand(before + ("${" + name + ":-" + default + "}") + after, env))
  {
    TrimTrimmed(name);
    ReferenceWithin(before, Var(name), after, env, env[name]);
    ReferenceWithin(before, VarOr(name, default), after, env, env[name]);
  }

  /** An unset variable is replaced by its default, stripped of white space. */
  lemma DefaultIsStripped(before: string, name: string, default: string, after: string, env: Env) returns (t: string)
    requires WellFormedPiece(VarOr(name, default)) && name !in env && default != [] && !Adjacent(before, '$', '{')
    ensures IsStripped(default, t)
    ensures Around(before, t, after, env, Expand(before + ("${" + name + ":-" + default + "}") + after, env))
  {
    t := Trim(default);
    TrimTrimmed(name);
    TrimStrips(default);
    ReferenceWithin(before, VarOr(name, default), after, env, t);
  }

  /** By itself a reference to a set variable expands to its value, and one to an unset
      variable to its stripped default. */
  lemma ReferenceAlone(name: string, default: string, env: Env)
    requires WellFormedPiece(VarOr(name, default))
    ensures name in env ==> Expand("${" + name + "}", env) == Expand("${" + name + ":-" + default + "}", env) == Ok(env[name])
    ensures name !in env && default != [] ==>
      exists t :: IsStripped(default, t) && Expand("${" + name + ":-" + default + "}", env) == Ok(t)
  {
    assert [] + ("${" + name + "}") + [] == "${" + name + "}";
    assert [] + ("${" + name + ":-" + default + "}") + [] == "${" + name + ":-" + default + "}";
    assert Expand([], env) == Ok([]);
    if name in env {
      SetVariableWins([], name, default, [], env);
      assert [] + env[name] + [] == env[name];
    } else if default != [] {
      var t := DefaultIsStripped([], name, default, [], env);
      assert [] + t + [] == t;
    }
  }

  /** A name may be padded: what counts is the name stripped.  A blank one is an error, and so
      is one that is unset. */
  lemma NameIsStripped(name: string, env: Env) returns (key: string)
    requires '}' !in name && !Adjacent(name, ':', '-')
    ensures IsStripped(name, key)
    ensures Expand("${" + name + "}", env) ==
      if key == [] then Err(EmptyName) else if key in env then Ok(env[key]) else Err(Unset(key))
  {
    key := Trim(name);
    TrimStrips(name);
    var s := "${" + name + "}";
    assert OpensReference(s) && s[2..] == name + "}" + [];
    ScanNameInverts(name, [], []);
    assert [] + name == name && Expand([], env) == Ok([]);
    if key in env { assert env[key] + [] == env[key]; }
  }

  /** Stripping has one result. */
  lemma StrippedUnique(s: string, t: string, u: string)
    requires IsStripped(s, t) && IsStripped(s, u)
    ensures t == u
  {
    var a, b :| AllSpace(a) && AllSpace(b) && s == a + t + b;
    var c, d :| AllSpace(c) && AllSpace(d) && s == c + u + d;
    if t != [] {
      Inside(s, a, t, b, c, u, d);
      if u != [] { Inside(s, c, u, d, a, t, b); }
      assert t == s[|a|..|a| + |t|] && u == s[|c|..|c| + |u|];
    } else if u != [] {
      Inside(s, c, u, d, a, t, b);
    }
  }

  /** A core with no white space at its ends lies within every other core. */
  lemma Inside(s: string, a: string, t: string, b: string, c: string, u: string, d: string)
    requires s == a + t + b && s == c + u + d && AllSpace(c) && AllSpace(d)
    requires t != [] && !IsSpace(t[0]) && !IsSpace(t[|t| - 1])
    ensures |c| <= |a| && |a| + |t| <= |c| + |u|
  {
    assert s[|a|] == t[0] && s[|a| + |t| - 1] == t[|t| - 1];
    assert forall k :: 0 <= k < |c| ==> s[k] == c[k];
    assert forall k :: |c| + |u| <= k < |s| ==> s[k] == d[k - |c| - |u|];
  }

  /** A reference that is never closed is read to the end of the input, as if it were closed
      there, whatever its text. */
  lemma UnclosedReference(text: string, env: Env)
    requires '}' !in text
    ensures Expand("${" + text, env) == Expand("${" + text + "}", env)
  {
    var s, t := "${" + text, "${" + text + "}";
    assert OpensReference(s) && s[2..] == text;
    assert OpensReference(t) && t[2..] == text + "}";
    UnclosedName(text, []);
  }

  lemma {:induction false} UnclosedName(text: string, name: string)
    requires '}' !in text
    ensures ScanName(text, name) == ScanName(text + "}", name)
    ensures ScanName(text, name).rest == []
    decreases text
  {
    var s := text + "}";
    if text == [] {
      assert s[0] == '}' && s[1..] == [];
    } else {
      assert s[0] == text[0] && s[1..] == text[1..] + "}";
      assert OpensDefault(s) <==> OpensDefault(text) by { assert |text| >= 2 ==> s[1] == text[1]; }
      if OpensDefault(text) {
        assert s[2..] == text[2..] + "}";
        UnclosedDefault(text[2..], name, None);
      } else {
        UnclosedName(text[1..], name + [text[0]]);
      }
    }
  }

  lemma {:induction false} UnclosedDefault(text: string, name: string, default: Option<string>)
    requires '}' !in text
    ensures ScanDefault(text, name, default) == ScanDefault(text + "}", name, default)
    ensures ScanDefault(text, name, default).rest == []
    decreases text
  {
    var s := text + "}";
    if text == [] {
      assert s[0] == '}' && s[1..] == [];
    } else {
      assert s[0] == text[0] && s[1..] == text[1..] + "}";
      UnclosedDefault(text[1..], name, Some((if default.Some? then default.value else []) + [text[0]]));
    }
  }
}
