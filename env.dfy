/** `handle_env_variables`: `re.sub` with the pattern `\$\(*(\w*)\)*`, written out as a
    scanner. The name-to-value map stands for the cached shell environment. */
module EnvVars {

  /** Python's `\w`, restricted to ASCII. */
  predicate IsWordChar(c: char)
  {
    ('a' <= c <= 'z') || ('A' <= c <= 'Z') || ('0' <= c <= '9') || c == '_'
  }

  predicate IsOpenParen(c: char) { c == '(' }

  predicate IsCloseParen(c: char) { c == ')' }

  /** The length of the longest prefix of `s` whose characters all satisfy `p`:
      what a greedy `x*` consumes. */
  function LeadingRun(s: string, p: char -> bool): (n: nat)
    ensures n <= |s|
    ensures forall k :: 0 <= k < n ==> p(s[k])
    ensures n == |s| || !p(s[n])
    decreases |s|
  {
    if s != [] && p(s[0]) then 1 + LeadingRun(s[1..], p) else 0
  }

  /** A greedy run over `u + v` stops exactly at the end of `u` when every character
      of `u` qualifies and the first of `v` does not. */
  lemma {:induction false} LeadingRunOf(u: string, v: string, p: char -> bool)
    requires forall k :: 0 <= k < |u| ==> p(u[k])
    requires v == [] || !p(v[0])
    ensures LeadingRun(u + v, p) == |u|
    decreases |u|
  {
    if u != [] {
      assert (u + v)[1..] == u[1..] + v;
      LeadingRunOf(u[1..], v, p);
    }
  }

  function Repeat(c: char, n: nat): (r: string)
    ensures |r| == n && forall k :: 0 <= k < n ==> r[k] == c
  {
    if n == 0 then [] else [c] + Repeat(c, n - 1)
  }

  /** One match of the pattern: `$`, `opens` open parentheses, the captured name,
      `closes` close parentheses. */
  datatype Reference = Reference(opens: nat, name: string, closes: nat)

  /** The text a reference was matched from (the pattern's group 0). */
  function RefText(ref: Reference): string
  {
    "$" + Repeat('(', ref.opens) + ref.name + Repeat(')', ref.closes)
  }

  predicate IsName(name: string)
  {
    forall k :: 0 <= k < |name| ==> IsWordChar(name[k])
  }

  /** No quantifier of the pattern could have taken the first character of `rest`. */
  predicate Maximal(ref: Reference, rest: string)
  {
    rest == [] ||
    (!IsCloseParen(rest[0]) &&
     (ref.closes == 0 ==> !IsWordChar(rest[0]) && (ref.name == [] ==> !IsOpenParen(rest[0]))))
  }

  /** The match of the pattern at a `$`: each quantifier takes as much as it can. */
  function MatchAt(s: string): (ref: Reference)
    requires s != [] && s[0] == '$'
    ensures |RefText(ref)| <= |s| && s[..|RefText(ref)|] == RefText(ref)
    ensures IsName(ref.name)
    ensures Maximal(ref, s[|RefText(ref)|..])
  {
    var afterDollar := s[1..];
    var a := LeadingRun(afterDollar, IsOpenParen);
    var afterOpens := afterDollar[a..];
    var w := LeadingRun(afterOpens, IsWordChar);
    var afterName := afterOpens[w..];
    var b := LeadingRun(afterName, IsCloseParen);
    var ref := Reference(a, afterOpens[..w], b);
    SplitAtMatch(s, ref, afterName[b..]);
    ref
  }

  /** The pieces a match is read from put back together give the text. */
  lemma {:induction false} SplitAtMatch(s: string, ref: Reference, rest: string)
    requires s != [] && s[0] == '$'
    requires var afterDollar := s[1..];
             ref.opens <= |afterDollar| && afterDollar[..ref.opens] == Repeat('(', ref.opens) &&
             var afterOpens := afterDollar[ref.opens..];
             |ref.name| <= |afterOpens| && afterOpens[..|ref.name|] == ref.name &&
             var afterName := afterOpens[|ref.name|..];
             ref.closes <= |afterName| && afterName[..ref.closes] == Repeat(')', ref.closes) &&
             rest == afterName[ref.closes..]
    ensures s == RefText(ref) + rest
    ensures s[..|RefText(ref)|] == RefText(ref) && s[|RefText(ref)|..] == rest
  {
    var afterDollar := s[1..];
    var afterOpens := afterDollar[ref.opens..];
    var afterName := afterOpens[|ref.name|..];
    SplitAt(afterName, ref.closes);
    SplitAt(afterOpens, |ref.name|);
    SplitAt(afterDollar, ref.opens);
    SplitAt(s, 1);
    assert s[..1] == "$";
    Regroup("$", Repeat('(', ref.opens), ref.name, Repeat(')', ref.closes), rest);
    Parts(RefText(ref), rest);
  }

  lemma {:induction false} SplitAt(s: string, n: nat)
    requires n <= |s|
    ensures s == s[..n] + s[n..]
  {
  }

  lemma {:induction false} Parts(x: string, y: string)
    ensures (x + y)[..|x|] == x && (x + y)[|x|..] == y
  {
  }

  lemma {:induction false} Regroup(a: string, b: string, c: string, d: string, e: string)
    ensures a + b + c + d + e == a + (b + (c + (d + e)))
  {
  }

  /** A well-formed, maximal reference is matched back exactly. */
  lemma {:induction false} MatchAtRefText(ref: Reference, rest: string)
    requires IsName(ref.name) && Maximal(ref, rest)
    ensures MatchAt(RefText(ref) + rest) == ref
  {
    var opens, name, closes := Repeat('(', ref.opens), ref.name, Repeat(')', ref.closes);
    var afterName := closes + rest;
    var afterOpens := name + afterName;
    var afterDollar := opens + afterOpens;
    Regroup("$", opens, name, closes, rest);
    Parts("$", afterDollar);
    if name != [] {
      assert afterOpens[0] == name[0];
    } else if ref.closes > 0 {
      assert afterOpens[0] == ')';
    } else {
      assert afterOpens == rest;
    }
    LeadingRunOf(opens, afterOpens, IsOpenParen);
    Parts(opens, afterOpens);
    if ref.closes > 0 {
      assert afterName[0] == ')';
    } else {
      assert afterName == rest;
    }
    LeadingRunOf(name, afterName, IsWordChar);
    Parts(name, afterName);
    LeadingRunOf(closes, rest, IsCloseParen);
    MatchAtIs(RefText(ref) + rest, afterDollar, afterOpens, afterName, ref);
  }

  /** `MatchAt` read off from the runs it measures. */
  lemma {:induction false} MatchAtIs(s: string, afterDollar: string, afterOpens: string, afterName: string, ref: Reference)
    requires s != [] && s[0] == '$' && s[1..] == afterDollar
    requires LeadingRun(afterDollar, IsOpenParen) == ref.opens && afterDollar[ref.opens..] == afterOpens
    requires LeadingRun(afterOpens, IsWordChar) == |ref.name|
    requires afterOpens[..|ref.name|] == ref.name && afterOpens[|ref.name|..] == afterName
    requires LeadingRun(afterName, IsCloseParen) == ref.closes
    ensures MatchAt(s) == ref
  {
  }

  /** `handle_env_variables(text)` with `env` standing for the environment mapping:
      each match whose name is known is replaced by its value, any other match is kept
      verbatim, and text between matches is copied. */
  function HandleEnv(s: string, env: map<string, string>): string
    decreases |s|
  {
    if s == [] then []
    else if s[0] != '$' then [s[0]] + HandleEnv(s[1..], env)
    else
      var ref := MatchAt(s);
      var n := |RefText(ref)|;
      (if ref.name in env then env[ref.name] else s[..n]) + HandleEnv(s[n..], env)
  }

  /** At a `$`, a reference becomes its value when the name is known, or stays as it was. */
  lemma {:induction false} SubstituteAtDollar(ref: Reference, rest: string, env: map<string, string>)
    requires IsName(ref.name) && Maximal(ref, rest)
    ensures HandleEnv(RefText(ref) + rest, env)
            == (if ref.name in env then env[ref.name] else RefText(ref)) + HandleEnv(rest, env)
  {
    var s := RefText(ref) + rest;
    MatchAtRefText(ref, rest);
    var n := |RefText(ref)|;
    assert s[0] == '$' && s[..n] == RefText(ref) && s[n..] == rest;
  }

  /** Text before the first `$` is copied one character at a time. */
  lemma {:induction false} PlainStep(pre: string, s: string, env: map<string, string>)
    requires pre != [] && pre[0] != '$'
    ensures HandleEnv(pre + s, env) == [pre[0]] + HandleEnv(pre[1..] + s, env)
  {
    assert (pre + s)[1..] == pre[1..] + s;
  }

  /** Text before the first `$` is copied unchanged. */
  lemma {:induction false} PlainPrefix(pre: string, s: string, env: map<string, string>)
    requires '$' !in pre
    ensures HandleEnv(pre + s, env) == pre + HandleEnv(s, env)
    decreases |pre|
  {
    if pre == [] {
      assert pre + s == s;
    } else {
      PlainStep(pre, s, env);
      PlainPrefix(pre[1..], s, env);
      assert pre == [pre[0]] + pre[1..];
    }
  }

  /** Substitution of one reference: the plain text before it is kept, and the
      reference becomes its value when the name is known, or stays as it was. */
  lemma SubstituteReference(pre: string, ref: Reference, rest: string, env: map<string, string>)
    requires '$' !in pre
    requires IsName(ref.name) && Maximal(ref, rest)
    ensures HandleEnv(pre + (RefText(ref) + rest), env)
            == pre + ((if ref.name in env then env[ref.name] else RefText(ref)) + HandleEnv(rest, env))
  {
    PlainPrefix(pre, RefText(ref) + rest, env);
    SubstituteAtDollar(ref, rest, env);
  }

  /** Text without a `$` is returned unchanged. */
  lemma {:induction false} NoDollarUnchanged(s: string, env: map<string, string>)
    requires '$' !in s
    ensures HandleEnv(s, env) == s
    decreases |s|
  {
    if s != [] {
      assert s[0] != '$' && '$' !in s[1..];
      NoDollarUnchanged(s[1..], env);
    }
  }

  /** A known name written `$(name)` and followed by plain text (`$(HOME)/foo`, say)
      becomes its value followed by that text. */
  lemma ParenthesisedKnownName(name: string, tail: string, env: map<string, string>)
    requires IsName(name) && name in env
    requires '$' !in tail && (tail == [] || tail[0] != ')')
    ensures HandleEnv("$(" + name + ")" + tail, env) == env[name] + tail
  {
    var ref := Reference(1, name, 1);
    assert Repeat('(', 1) == "(" && Repeat(')', 1) == ")";
    assert RefText(ref) == "$(" + name + ")";
    SubstituteAtDollar(ref, tail, env);
    NoDollarUnchanged(tail, env);
  }

  /** An unknown `$NOPE` is left as it is. */
  lemma {:induction false} UnknownNameKept(text: string, env: map<string, string>)
    requires text == "$NOPE" && "NOPE" !in env
    ensures HandleEnv(text, env) == text
  {
    var ref := Reference(0, "NOPE", 0);
    assert Repeat('(', 0) == [] && Repeat(')', 0) == [];
    assert RefText(ref) + "" == "$NOPE";
    SubstituteAtDollar(ref, "", env);
  }
}
