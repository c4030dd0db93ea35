/** Quoted strings inside a larger text: why a key is never found inside a value. */
module Quoted {

  predicate KeyChar(c: char) { 'a' <= c <= 'z' || c == '_' }

  predicate KeyOk(k: string) { k != [] && forall i | 0 <= i < |k| :: KeyChar(k[i]) }

  function Quote(body: string): string { "\"" + body + "\"" }

  /** Every quote in a quoted value is escaped. */
  predicate BodyOk(body: string) { forall i | 0 <= i < |body| && body[i] == '"' :: i > 0 && body[i - 1] == '\\' }

  predicate QuotedOk(v: string) { |v| >= 2 && v == Quote(v[1..|v| - 1]) && BodyOk(v[1..|v| - 1]) }

  lemma QuotedIsOk(body: string)
    ensures BodyOk(body) ==> QuotedOk(Quote(body))
  {
    assert Quote(body)[1..|Quote(body)| - 1] == body;
  }

  lemma BodiesJoin(a: string, b: string)
    requires BodyOk(a) && BodyOk(b)
    ensures BodyOk(a + b)
  {
    var e := a + b;
    assert forall i | 0 <= i < |a| :: e[i] == a[i];
    assert forall i | |a| <= i < |e| :: e[i] == b[i - |a|];
  }

  /** The value v stands in t at vs. If a quote of v is followed by a key and another quote, that is v's closing quote:
      the inner ones have a backslash in front. */
  lemma InQuoted(v: string, t: string, vs: nat, n: nat, p: nat)
    requires QuotedOk(v) && n > 0
    requires vs <= p < vs + |v| && p + n + 1 < |t| && vs + |v| < |t| && (forall i | 0 <= i < |v| :: t[vs + i] == v[i])
    requires !KeyChar(t[vs + |v|])
    requires t[p] == '"' && forall i | p < i <= p + n :: KeyChar(t[i])
    ensures t[p + n + 1] == '"' ==> p + n + 1 == vs + |v| - 1
  {
    var q, ce, body := p + n + 1, vs + |v| - 1, v[1..|v| - 1];
    assert t[ce] == v[|v| - 1] == '"';
    assert KeyChar(t[p + 1]);
    assert p != ce;
    assert q <= ce;
    if q < ce {
      assert t[q] == v[q - vs] == body[q - vs - 1];
      assert q - vs - 1 > 0 ==> t[q - 1] == v[q - vs - 1] == body[q - vs - 2];
      assert KeyChar(t[q - 1]);
    }
  }
}
