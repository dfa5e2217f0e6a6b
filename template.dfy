/**
 * Best-effort template rendering as the mailer does it: `template.format(**ctx)`
 * inside a `try`, returning the template untouched when formatting raises.
 *
 * Only the part of Python's format-string language the mailer's templates
 * use is modelled: literal text, the escapes `{{` and `}}`, and replacement
 * fields `{key}` looked up among the keyword arguments.
 */
module Template {
  import opened Wrappers

  /** A parsed template: one piece per literal character or field. */
  datatype Piece = Lit(c: char) | Field(name: string)

  /** Index of the first `}` in `t` at or after `from`, or `|t|` if none. */
  function CloseBrace(t: string, from: nat): (j: nat)
    requires from <= |t|
    ensures from <= j <= |t|
    ensures forall k :: from <= k < j ==> t[k] != '}'
    ensures j < |t| ==> t[j] == '}'
    decreases |t| - from
  {
    if from == |t| || t[from] == '}' then from else CloseBrace(t, from + 1)
  }

  function Cons(p: Piece, rest: Option<seq<Piece>>): Option<seq<Piece>>
  {
    if rest.Some? then Some([p] + rest.value) else None
  }

  /**
   * Python's format-string scanner. `None` is the `ValueError` it raises:
   * a `{` never closed ("expected '}' before end of string", "Single '{'")
   * or a lone `}` ("Single '}' encountered").
   */
  function Parse(t: string): Option<seq<Piece>>
    decreases |t|
  {
    if t == [] then Some([])
    else if t[0] == '{' then
      if |t| > 1 && t[1] == '{' then Cons(Lit('{'), Parse(t[2..]))
      else
        var j := CloseBrace(t, 1);
        if j == |t| then None else Cons(Field(t[1..j]), Parse(t[j + 1..]))
    else if t[0] == '}' then
      if |t| > 1 && t[1] == '}' then Cons(Lit('}'), Parse(t[2..])) else None
    else Cons(Lit(t[0]), Parse(t[1..]))
  }

  predicate IsDigit(c: char) { '0' <= c <= '9' }

  /**
   * A field that `format(**ctx)` fills from a keyword argument: a non-empty
   * name that is not an integer (an empty or all-digit name is positional
   * and raises `IndexError`, as no positional arguments are passed), with
   * no conversion, format spec, attribute or index part, bound in `ctx`.
   */
  predicate Resolvable(name: string, ctx: map<string, string>)
  {
    && name != []
    && (exists k :: 0 <= k < |name| && !IsDigit(name[k]))
    && (forall k :: 0 <= k < |name| ==> name[k] !in "{}!:.[")
    && name in ctx
  }

  predicate AllResolvable(ps: seq<Piece>, ctx: map<string, string>)
  {
    forall k :: 0 <= k < |ps| && ps[k].Field? ==> Resolvable(ps[k].name, ctx)
  }

  /** The text a piece stands for once every field is resolved. */
  function Text(p: Piece, ctx: map<string, string>): string
    requires p.Field? ==> Resolvable(p.name, ctx)
  {
    match p
    case Lit(c) => [c]
    case Field(n) => ctx[n]
  }

  /** Fill the fields left to right; the first unresolvable one raises. */
  function Fill(ps: seq<Piece>, ctx: map<string, string>): Option<string>
  {
    if ps == [] then Some([])
    else if ps[0].Field? && !Resolvable(ps[0].name, ctx) then None
    else
      var rest := Fill(ps[1..], ctx);
      if rest.Some? then Some(Text(ps[0], ctx) + rest.value) else None
  }

  /**
   * `template.format(**ctx)`; `None` when it raises. It succeeds exactly
   * when the template is well formed and every field resolves in `ctx`.
   */
  function Format(t: string, ctx: map<string, string>): (r: Option<string>)
    ensures r.Some? <==> Parse(t).Some? && AllResolvable(Parse(t).value, ctx)
  {
    var ps := Parse(t);
    if ps.Some? then
      FillSucceedsIff(ps.value, ctx);
      Fill(ps.value, ctx)
    else None
  }

  /** `safe_format`: the rendered text, or the template itself when
      formatting raises. Never fails. */
  function SafeFormat(t: string, ctx: map<string, string>): (r: string)
    ensures Format(t, ctx).Some? ==> r == Format(t, ctx).value
    ensures Format(t, ctx).None? ==> r == t
  {
    var f := Format(t, ctx);
    if f.Some? then f.value else t
  }

  /** Filling succeeds exactly when every field in the template resolves. */
  lemma {:induction false} FillSucceedsIff(ps: seq<Piece>, ctx: map<string, string>)
    ensures Fill(ps, ctx).Some? <==> AllResolvable(ps, ctx)
  {
    if ps != [] {
      FillSucceedsIff(ps[1..], ctx);
      if AllResolvable(ps[1..], ctx) && (ps[0].Field? ==> Resolvable(ps[0].name, ctx)) {
        forall k | 0 <= k < |ps| && ps[k].Field?
          ensures Resolvable(ps[k].name, ctx)
        {
          if k > 0 { assert ps[k] == ps[1..][k - 1]; }
        }
      }
      if AllResolvable(ps, ctx) {
        forall k | 0 <= k < |ps[1..]| && ps[1..][k].Field?
          ensures Resolvable(ps[1..][k].name, ctx)
        {
          assert ps[1..][k] == ps[k + 1];
        }
      }
    }
  }

  /** A template that names a key the context lacks comes back verbatim. */
  lemma MissingKeyKeepsTemplate(t: string, ctx: map<string, string>, key: string)
    requires Parse(t).Some? && Field(key) in Parse(t).value
    requires key !in ctx
    ensures SafeFormat(t, ctx) == t
  {
    var ps := Parse(t).value;
    var k :| 0 <= k < |ps| && ps[k] == Field(key);
    FillSucceedsIff(ps, ctx);
  }

  /** A template with unbalanced braces comes back verbatim, whatever the context. */
  lemma MalformedKeepsTemplate(t: string, ctx: map<string, string>)
    requires Parse(t).None?
    ensures SafeFormat(t, ctx) == t
  {
  }

  predicate Braceless(s: string)
  {
    forall k :: 0 <= k < |s| ==> s[k] != '{' && s[k] != '}'
  }

  /** The pieces of plain literal text. */
  function Lits(s: string): (ps: seq<Piece>)
    ensures |ps| == |s|
  {
    seq(|s|, k requires 0 <= k < |s| => Lit(s[k]))
  }

  /** Text with no braces at all parses as literal characters. */
  lemma {:induction false} ParseBraceless(t: string)
    requires Braceless(t)
    ensures Parse(t) == Some(Lits(t))
  {
    if t != [] {
      assert Braceless(t[1..]) by {
        forall k | 0 <= k < |t[1..]| ensures t[1..][k] != '{' && t[1..][k] != '}' {
          assert t[1..][k] == t[k + 1];
        }
      }
      ParseBraceless(t[1..]);
      assert Lits(t) == [Lit(t[0])] + Lits(t[1..]);
    }
  }

  /** Literal pieces fill to their own characters. */
  lemma {:induction false} FillLiterals(s: string, ctx: map<string, string>)
    ensures Fill(Lits(s), ctx) == Some(s)
  {
    if s != [] {
      FillLiterals(s[1..], ctx);
      assert Lits(s)[1..] == Lits(s[1..]);
      assert s == [s[0]] + s[1..];
    }
  }

  /** Text with no braces at all renders as itself under any context. */
  lemma BracelessRendersItself(t: string, ctx: map<string, string>)
    requires Braceless(t)
    ensures Format(t, ctx) == Some(t)
    ensures SafeFormat(t, ctx) == t
  {
    ParseBraceless(t);
    FillLiterals(t, ctx);
  }

  /** Writes a parsed template back as format-string text, doubling literal braces. */
  function Unparse(ps: seq<Piece>): string
  {
    if ps == [] then [] else Written(ps[0]) + Unparse(ps[1..])
  }

  function Written(p: Piece): string
  {
    match p
    case Lit(c) => if c == '{' || c == '}' then [c, c] else [c]
    case Field(n) => ['{'] + n + ['}']
  }

  predicate FieldNamesBraceless(ps: seq<Piece>)
  {
    forall k :: 0 <= k < |ps| && ps[k].Field? ==> Braceless(ps[k].name)
  }

  /** Parsing the text Unparse writes gives back the same pieces. */
  lemma {:induction false} ParseUnparse(ps: seq<Piece>)
    requires FieldNamesBraceless(ps)
    ensures Parse(Unparse(ps)) == Some(ps)
  {
    if ps != [] {
      var p, tail := ps[0], ps[1..];
      FieldNamesBracelessTail(ps);
      ParseUnparse(tail);
      var rest := Unparse(tail);
      assert Unparse(ps) == Written(p) + rest;
      ParseWritten(p, rest);
      assert [p] + tail == ps;
    }
  }

  lemma FieldNamesBracelessTail(ps: seq<Piece>)
    requires ps != [] && FieldNamesBraceless(ps)
    ensures FieldNamesBraceless(ps[1..])
    ensures ps[0].Field? ==> Braceless(ps[0].name)
  {
    forall k | 0 <= k < |ps[1..]| && ps[1..][k].Field?
      ensures Braceless(ps[1..][k].name)
    {
      assert ps[1..][k] == ps[k + 1];
    }
  }

  /** A written piece in front of some text parses back to that piece in front of the text's pieces. */
  lemma ParseWritten(p: Piece, rest: string)
    requires p.Field? ==> Braceless(p.name)
    ensures Parse(Written(p) + rest) == Cons(p, Parse(rest))
  {
    var t := Written(p) + rest;
    match p
    case Lit(c) =>
      if c == '{' || c == '}' {
        assert t == [c, c] + rest && t[2..] == rest;
      } else {
        assert t == [c] + rest && t[1..] == rest;
      }
    case Field(n) =>
      assert t == ['{'] + n + ['}'] + rest;
      assert t[0] == '{' && t[|n| + 1] == '}';
      assert forall k :: 1 <= k < |n| + 1 ==> t[k] == n[k - 1];
      CloseBraceSkips(t, 1, |n| + 1);
      assert t[1..|n| + 1] == n && t[|n| + 2..] == rest;
      assert t[1] != '{' by {
        if n == [] { assert t[1] == '}'; } else { assert t[1] == n[0]; }
      }
  }

  lemma {:induction false} CloseBraceSkips(t: string, from: nat, j: nat)
    requires from <= j < |t| && t[j] == '}'
    requires forall k :: from <= k < j ==> t[k] != '}'
    ensures CloseBrace(t, from) == j
    decreases j - from
  {
    if from < j { CloseBraceSkips(t, from + 1, j); }
  }

  /** Literal text, with its braces escaped, renders back to itself. */
  function Escape(s: string): string
  {
    Unparse(Lits(s))
  }

  lemma EscapeRoundTrip(s: string, ctx: map<string, string>)
    ensures SafeFormat(Escape(s), ctx) == s
  {
    ParseUnparse(Lits(s));
    FillLiterals(s, ctx);
  }

  /** Unparse works piece by piece. */
  lemma {:induction false} UnparseAppend(a: seq<Piece>, b: seq<Piece>)
    ensures Unparse(a + b) == Unparse(a) + Unparse(b)
  {
    if a == [] {
      assert a + b == b;
    } else {
      var ab := a + b;
      assert ab[0] == a[0] && ab[1..] == a[1..] + b;
      UnparseAppend(a[1..], b);
      var w := Written(a[0]);
      calc {
        Unparse(ab);
        w + Unparse(a[1..] + b);
        w + (Unparse(a[1..]) + Unparse(b));
        (w + Unparse(a[1..])) + Unparse(b);
        Unparse(a) + Unparse(b);
      }
    }
  }

  /** Brace-free text is written back unchanged. */
  lemma {:induction false} UnparseLits(s: string)
    requires Braceless(s)
    ensures Unparse(Lits(s)) == s
  {
    if s != [] {
      assert Braceless(s[1..]) by {
        forall k | 0 <= k < |s[1..]| ensures s[1..][k] != '{' && s[1..][k] != '}' {
          assert s[1..][k] == s[k + 1];
        }
      }
      UnparseLits(s[1..]);
      assert Lits(s)[1..] == Lits(s[1..]);
      assert s == [s[0]] + s[1..];
    }
  }

  /** Rendering a concatenation renders each part, and fails if either does. */
  lemma {:induction false} FillAppend(a: seq<Piece>, b: seq<Piece>, ctx: map<string, string>)
    ensures Fill(a + b, ctx) ==
      if Fill(a, ctx).Some? && Fill(b, ctx).Some?
      then Some(Fill(a, ctx).value + Fill(b, ctx).value) else None
  {
    if a == [] {
      assert a + b == b;
      if Fill(b, ctx).Some? { assert [] + Fill(b, ctx).value == Fill(b, ctx).value; }
    } else {
      FillAppend(a[1..], b, ctx);
      assert (a + b)[1..] == a[1..] + b;
      assert (a + b)[0] == a[0];
      if Fill(a, ctx).Some? && Fill(b, ctx).Some? {
        var h, x, y := Text(a[0], ctx), Fill(a[1..], ctx).value, Fill(b, ctx).value;
        assert h + (x + y) == (h + x) + y;
      }
    }
  }

  /** How the default body's greeting `Hi {name}` parses. */
  lemma GreetingParses()
    ensures Parse("Hi {name}") == Some(Lits("Hi ") + [Field("name")])
  {
    var ps := Lits("Hi ") + [Field("name")];
    assert Unparse(ps) == "Hi {name}" by {
      UnparseAppend(Lits("Hi "), [Field("name")]);
      UnparseLits("Hi ");
      assert Unparse([Field("name")]) == "{name}";
    }
    assert FieldNamesBraceless(ps) by {
      assert forall k :: 0 <= k < 3 ==> ps[k].Lit?;
    }
    ParseUnparse(ps);
  }

  /** With no `name` in the context the greeting is sent unrendered. */
  lemma GreetingWithoutName()
    ensures SafeFormat("Hi {name}", map[]) == "Hi {name}"
  {
    GreetingParses();
    assert Parse("Hi {name}").value[3] == Field("name");
    MissingKeyKeepsTemplate("Hi {name}", map[], "name");
  }

  /** With a `name` in the context the field is filled. */
  lemma GreetingWithName()
    ensures SafeFormat("Hi {name}", map["name" := "Ada"]) == "Hi Ada"
  {
    GreetingParses();
    var ctx := map["name" := "Ada"];
    var field := [Field("name")];
    assert Resolvable("name", ctx) by { assert !IsDigit("name"[0]); }
    assert Fill(field, ctx) == Some("Ada") by {
      assert field[1..] == [];
      assert Text(field[0], ctx) == "Ada";
      assert "Ada" + [] == "Ada";
    }
    FillLiterals("Hi ", ctx);
    FillAppend(Lits("Hi "), field, ctx);
    assert Format("Hi {name}", ctx) == Some("Hi " + "Ada");
  }
}
