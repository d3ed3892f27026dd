/** Canonical text identifies a JSON tree up to the order of object keys. */
module CanonicalJsonLaws {
  import opened Sorting
  import opened TextOrder
  import opened Totals
  import opened Keys
  import opened CanonicalJson

  // ---- Trees -------------------------------------------------------------------------------------

  predicate Lexeme(text: string) {
    text != "" && (text[0] == '-' || '0' <= text[0] <= '9') && forall c | c in text :: c in "0123456789+-.eE"
  }

  function FieldKey(): Field -> string { (f: Field) => f.key }

  /** Numbers carry number texts, and objects hold no key twice. */
  predicate WellFormed(v: Json)
    decreases v
  {
    match v
    case Number(text) => Lexeme(text)
    case Arr(items) => forall i | 0 <= i < |items| :: WellFormed(items[i])
    case Obj(fields) => DistinctBy(fields, FieldKey()) && forall i | 0 <= i < |fields| :: WellFormed(fields[i].value)
    case _ => true
  }

  /** Equal up to the order of object keys, at every depth. */
  predicate Same(a: Json, b: Json)
    decreases a
  {
    match (a, b)
    case (Arr(xs), Arr(ys)) => |xs| == |ys| && forall i | 0 <= i < |xs| :: Same(xs[i], ys[i])
    case (Obj(f), Obj(g)) => |f| == |g| && forall i | 0 <= i < |f| :: HasSame(g, f[i])
    case (Arr(_), _) => false
    case (Obj(_), _) => false
    case (_, _) => a == b
  }

  predicate HasSame(fields: seq<Field>, field: Field)
    decreases field
  {
    exists j :: 0 <= j < |fields| && fields[j].key == field.key && Same(field.value, fields[j].value)
  }

  // ---- A scanner for the end of a value ----------------------------------------------------------

  datatype Mode = Outside | Inside | Escaped

  function DepthAfter(c: char, depth: nat): nat {
    if c == '[' || c == '{' then depth + 1
    else if (c == ']' || c == '}') && depth > 0 then depth - 1
    else depth
  }

  /** How many characters come before a comma or closing bracket that is in no string and no inner bracket. */
  function Scan(s: string, depth: nat, mode: Mode): nat
    decreases |s|
  {
    if s == [] then 0
    else
      match mode
      case Outside =>
        if depth == 0 && s[0] in ",]}" then 0
        else 1 + Scan(s[1..], DepthAfter(s[0], depth), if s[0] == '\"' then Inside else Outside)
      case Inside =>
        1 + Scan(s[1..], depth, if s[0] == '\\' then Escaped else if s[0] == '\"' then Outside else Inside)
      case Escaped => 1 + Scan(s[1..], depth, Inside)
  }

  /** The scanner walks over the text and comes out where it went in. */
  ghost predicate Balanced(t: string) {
    forall x: string, d: nat :: Scan(t + x, d, Outside) == |t| + Scan(x, d, Outside)
  }

  /** The same inside some bracket, where commas are passed. */
  ghost predicate BalancedWithin(t: string) {
    forall x: string, d: nat | d > 0 :: Scan(t + x, d, Outside) == |t| + Scan(x, d, Outside)
  }

  lemma {:induction false} BalancedTogether(a: string, b: string)
    requires Balanced(a) && Balanced(b)
    ensures Balanced(a + b)
  {
    forall x: string, d: nat ensures Scan((a + b) + x, d, Outside) == |a + b| + Scan(x, d, Outside) {
      assert (a + b) + x == a + (b + x);
    }
  }

  lemma {:induction false} WithinTogether(a: string, b: string)
    requires BalancedWithin(a) && BalancedWithin(b)
    ensures BalancedWithin(a + b)
  {
    forall x: string, d: nat | d > 0 ensures Scan((a + b) + x, d, Outside) == |a + b| + Scan(x, d, Outside) {
      assert (a + b) + x == a + (b + x);
    }
  }

  lemma {:induction false} PlainWalk(t: string, x: string, d: nat)
    requires forall c | c in t :: c !in ",]}[{\""
    ensures Scan(t + x, d, Outside) == |t| + Scan(x, d, Outside)
  {
    if t == [] {
      assert t + x == x;
    } else {
      assert (t + x)[1..] == t[1..] + x && t[0] in t;
      PlainWalk(t[1..], x, d);
    }
  }

  lemma {:induction false} PlainBalanced(t: string)
    requires forall c | c in t :: c !in ",]}[{\""
    ensures Balanced(t)
  {
    forall x: string, d: nat ensures Scan(t + x, d, Outside) == |t| + Scan(x, d, Outside) { PlainWalk(t, x, d); }
  }

  // ---- Strings -----------------------------------------------------------------------------------

  lemma {:induction false} StepInside(s: string, d: nat)
    requires s != [] && s[0] != '\\' && s[0] != '\"'
    ensures Scan(s, d, Inside) == 1 + Scan(s[1..], d, Inside)
  {}

  lemma {:induction false} EscapeWalk(c: char, x: string, d: nat)
    ensures Scan(Escape(c) + x, d, Inside) == |Escape(c)| + Scan(x, d, Inside)
  {
    var s := Escape(c) + x;
    if |Escape(c)| == 1 {
      assert s[1..] == x;
    } else if |Escape(c)| == 2 {
      assert s[1..][1..] == x;
    } else {
      assert s[1..][1..] == "00" + [HexDigit(c as int / 16), HexDigit(c as int % 16)] + x;
      FourInside(s[1..][1..], d);
      assert s[1..][1..][4..] == x;
    }
  }

  lemma {:induction false} FourInside(s: string, d: nat)
    requires |s| >= 4 && forall i | 0 <= i < 4 :: s[i] != '\\' && s[i] != '\"'
    ensures Scan(s, d, Inside) == 4 + Scan(s[4..], d, Inside)
  {
    StepInside(s, d);
    StepInside(s[1..], d);
    StepInside(s[1..][1..], d);
    StepInside(s[1..][1..][1..], d);
    assert s[1..][1..][1..][1..] == s[4..];
  }

  lemma {:induction false} InsideWalk(s: string, x: string, d: nat)
    ensures Scan(EscapeAll(s) + x, d, Inside) == |EscapeAll(s)| + Scan(x, d, Inside)
  {
    if s == [] {
      assert EscapeAll(s) + x == x;
    } else {
      InsideWalk(s[1..], x, d);
      EscapeWalk(s[0], EscapeAll(s[1..]) + x, d);
      assert EscapeAll(s) + x == Escape(s[0]) + (EscapeAll(s[1..]) + x);
    }
  }

  lemma {:induction false} QuoteBalanced(s: string)
    ensures Balanced(Quote(s))
  {
    forall x: string, d: nat ensures Scan(Quote(s) + x, d, Outside) == |Quote(s)| + Scan(x, d, Outside) {
      var whole := Quote(s) + x;
      assert whole[1..] == EscapeAll(s) + ("\"" + x);
      InsideWalk(s, "\"" + x, d);
      assert ("\"" + x)[1..] == x;
    }
  }

  /**
   * Exactly the quotation mark, the backslash and the control characters are escaped: by their short form where one exists,
   * else by their code in four hexadecimal digits.
   */
  lemma {:induction false} EscapesExactly(c: char)
    ensures var n := c as int;
      Escape(c) ==
        if n == 34 then ['\\', '"'] else if n == 92 then ['\\', '\\']
        else if n == 8 then ['\\', 'b'] else if n == 9 then ['\\', 't'] else if n == 10 then ['\\', 'n']
        else if n == 12 then ['\\', 'f'] else if n == 13 then ['\\', 'r']
        else if n <= 31 then ['\\', 'u', '0', '0', HexDigit(n / 16), HexDigit(n % 16)]
        else [c]
  {}

  lemma {:induction false} HexInjective(m: nat, n: nat)
    requires m < 16 && n < 16 && HexDigit(m) == HexDigit(n)
    ensures m == n
  {
    var digits := "0123456789abcdef";
    assert forall i, j | 0 <= i < j < 16 :: digits[i] != digits[j];
  }

  /** No escape begins another, and none begins with a quote. */
  lemma {:induction false} EscapeDecodes(c: char, x: string, e: char, y: string)
    requires Escape(c) + x == Escape(e) + y
    ensures c == e && x == y
  {
    var s, t := Escape(c) + x, Escape(e) + y;
    assert s[0] == Escape(c)[0] && t[0] == Escape(e)[0];
    if |Escape(c)| > 1 && |Escape(e)| > 1 {
      assert s[1] == Escape(c)[1] && t[1] == Escape(e)[1];
      if |Escape(c)| == 6 && |Escape(e)| == 6 {
        assert s[4] == Escape(c)[4] && t[4] == Escape(e)[4] && s[5] == Escape(c)[5] && t[5] == Escape(e)[5];
        HexInjective(c as int / 16, e as int / 16);
        HexInjective(c as int % 16, e as int % 16);
      }
    }
    assert |Escape(c)| == |Escape(e)|;
    assert x == s[|Escape(c)|..] && y == t[|Escape(e)|..];
  }

  lemma {:induction false} EscapeSplits(s: string, r: string)
    requires s != []
    ensures EscapeAll(s) + r == Escape(s[0]) + (EscapeAll(s[1..]) + r)
    ensures (EscapeAll(s) + r)[0] != '\"'
  {}

  lemma {:induction false} ClosingQuoteDiffers(t: string, x: string, r: string)
    requires t != []
    ensures "\"" + x != EscapeAll(t) + r
  {
    EscapeSplits(t, r);
    assert ("\"" + x)[0] == '\"';
  }

  /** Escaped characters up to a closing quote are read back, whatever follows. */
  lemma {:induction false} EscapeAllDecodes(s: string, p: string, t: string, q: string)
    requires p != "" && q != "" && p[0] == '\"' && q[0] == '\"'
    requires EscapeAll(s) + p == EscapeAll(t) + q
    ensures s == t && p == q
  {
    assert p == "\"" + p[1..] && q == "\"" + q[1..];
    if s == [] {
      assert EscapeAll(s) + p == p;
      if t == [] { assert EscapeAll(t) + q == q; } else { ClosingQuoteDiffers(t, p[1..], q); }
    } else if t == [] {
      assert EscapeAll(t) + q == q;
      ClosingQuoteDiffers(s, q[1..], p);
    } else {
      EscapeSplits(s, p);
      EscapeSplits(t, q);
      EscapeDecodes(s[0], EscapeAll(s[1..]) + p, t[0], EscapeAll(t[1..]) + q);
      EscapeAllDecodes(s[1..], p, t[1..], q);
      assert s == [s[0]] + s[1..] && t == [t[0]] + t[1..];
    }
  }

  lemma {:induction false} QuoteOpens(s: string, x: string)
    ensures Quote(s) + x != "" && (Quote(s) + x)[1..] == EscapeAll(s) + ("\"" + x)
  {}

  /** A quoted string is read back, whatever follows it. */
  lemma {:induction false} QuoteDecodes(s: string, x: string, t: string, y: string)
    requires Quote(s) + x == Quote(t) + y
    ensures s == t && x == y
  {
    QuoteOpens(s, x);
    QuoteOpens(t, y);
    EscapeAllDecodes(s, "\"" + x, t, "\"" + y);
    assert x == ("\"" + x)[1..] && y == ("\"" + y)[1..];
  }

  // ---- Lists of texts ----------------------------------------------------------------------------

  predicate Delimited(x: string) { x != "" ==> x[0] in ",]}" }

  /** Balanced texts are prefix codes in front of a delimiter. */
  lemma {:induction false} PrefixFree(a: string, x: string, b: string, y: string)
    requires Balanced(a) && Balanced(b) && Delimited(x) && Delimited(y) && a + x == b + y
    ensures a == b && x == y
  {
    assert Scan(a + x, 0, Outside) == |a| + Scan(x, 0, Outside);
    assert Scan(b + y, 0, Outside) == |b| + Scan(y, 0, Outside);
    assert Scan(x, 0, Outside) == 0 && Scan(y, 0, Outside) == 0;
    assert a == (a + x)[..|a|] && b == (b + y)[..|b|];
    assert x == (a + x)[|a|..] && y == (b + y)[|b|..];
  }

  function Tail(texts: seq<string>): string
    requires texts != []
  {
    if |texts| == 1 then "" else "," + Join(texts[1..])
  }

  lemma {:induction false} JoinSplits(texts: seq<string>)
    requires texts != []
    ensures Join(texts) == texts[0] + Tail(texts)
  {}

  ghost predicate Tokens(texts: seq<string>) { forall i | 0 <= i < |texts| :: texts[i] != "" && Balanced(texts[i]) }

  lemma {:induction false} JoinInjective(a: seq<string>, b: seq<string>)
    requires Tokens(a) && Tokens(b) && Join(a) == Join(b)
    ensures a == b
  {
    if a == [] || b == [] {
      if a != [] { JoinSplits(a); }
      if b != [] { JoinSplits(b); }
    } else {
      JoinSplits(a);
      JoinSplits(b);
      PrefixFree(a[0], Tail(a), b[0], Tail(b));
      if |a| > 1 {
        assert Tail(a)[1..] == Join(a[1..]) && Tail(b)[1..] == Join(b[1..]);
        JoinInjective(a[1..], b[1..]);
      }
      assert a == [a[0]] + a[1..] && b == [b[0]] + b[1..];
    }
  }

  lemma {:induction false} JoinWithin(texts: seq<string>)
    requires Tokens(texts)
    ensures BalancedWithin(Join(texts))
  {
    if texts == [] {
      forall x: string, d: nat | d > 0 ensures Scan("" + x, d, Outside) == Scan(x, d, Outside) { assert "" + x == x; }
    } else if |texts| > 1 {
      JoinWithin(texts[1..]);
      WithinTogether(texts[0], ",");
      WithinTogether(texts[0] + ",", Join(texts[1..]));
    }
  }

  lemma {:induction false} BracketBalanced(open: char, inner: string, close: char)
    requires BalancedWithin(inner) && (open == '[' || open == '{') && (close == ']' || close == '}')
    ensures Balanced([open] + inner + [close])
  {
    var t := [open] + inner + [close];
    forall x: string, d: nat ensures Scan(t + x, d, Outside) == |t| + Scan(x, d, Outside) {
      assert (t + x)[1..] == inner + ([close] + x);
      assert ([close] + x)[1..] == x;
    }
  }

  // ---- Every canonical text is balanced ----------------------------------------------------------

  lemma {:induction false} MemberBalanced(m: Member)
    requires Balanced(m.text)
    ensures Balanced(MemberText(m)) && MemberText(m) != ""
  {
    QuoteBalanced(m.key);
    PlainBalanced(":");
    BalancedTogether(Quote(m.key), ":");
    BalancedTogether(Quote(m.key) + ":", m.text);
  }

  lemma {:induction false} ByMemberIsTotal(le: Comparison)
    requires KeyOrder(le)
    ensures TotalPreorder(ByMember(le))
  {
    forall m: Member, n: Member ensures ByMember(le)(m, n) || ByMember(le)(n, m) {
      assert le(m.key, n.key) || le(n.key, m.key);
    }
    forall m: Member, n: Member, o: Member | ByMember(le)(m, n) && ByMember(le)(n, o) ensures ByMember(le)(m, o) {
      assert le(m.key, n.key) && le(n.key, o.key);
    }
  }

  lemma {:induction false} MembersSort(members: seq<Member>, le: Comparison)
    requires KeyOrder(le)
    ensures var s := Sort(members, ByMember(le));
      && SortedBy(s, ByMember(le)) && multiset(s) == multiset(members) && |s| == |members|
      && forall m | m in s :: m in members
  {
    ByMemberIsTotal(le);
    SortCorrect(members, ByMember(le));
    var s := Sort(members, ByMember(le));
    forall m | m in s ensures m in members { assert m in multiset(s); }
  }

  lemma {:induction false} MembersForgetOrder(s: seq<Member>, t: seq<Member>, le: Comparison)
    requires KeyOrder(le) && DistinctBy(s, MemberKey()) && multiset(s) == multiset(t)
    ensures Sort(s, ByMember(le)) == Sort(t, ByMember(le))
  {
    forall m, n | m in s && n in s && ByMember(le)(m, n) && ByMember(le)(n, m) ensures m == n {
      SameKeySameElement(s, MemberKey(), m, n);
    }
    ByMemberIsTotal(le);
    SortForgetsOrder(s, t, ByMember(le));
  }

  lemma {:induction false} SortedMembers(fields: seq<Field>, m: Member, le: Comparison) returns (i: nat)
    requires KeyOrder(le) && m in Sort(Members(fields, le), ByMember(le))
    ensures i < |fields| && m == Member(fields[i].key, Canonical(fields[i].value, le))
  {
    MembersSort(Members(fields, le), le);
    i :| i < |Members(fields, le)| && Members(fields, le)[i] == m;
  }

  lemma {:induction false} MemberTokens(fields: seq<Field>, le: Comparison)
    requires KeyOrder(le) && forall i | 0 <= i < |fields| :: Balanced(Canonical(fields[i].value, le))
    ensures Tokens(MemberTexts(Sort(Members(fields, le), ByMember(le))))
  {
    var members := Sort(Members(fields, le), ByMember(le));
    forall k | 0 <= k < |members| ensures Balanced(MemberText(members[k])) && MemberText(members[k]) != "" {
      var i := SortedMembers(fields, members[k], le);
      MemberBalanced(members[k]);
    }
  }

  lemma {:induction false} NumberBalanced(text: string)
    requires Lexeme(text)
    ensures Balanced(text)
  {
    forall c | c in text ensures c !in ",]}[{\"" { assert c in "0123456789+-.eE"; }
    PlainBalanced(text);
  }

  lemma {:induction false} ListBalanced(open: char, texts: seq<string>, close: char)
    requires Tokens(texts) && (open == '[' || open == '{') && (close == ']' || close == '}')
    ensures Balanced([open] + Join(texts) + [close])
  {
    JoinWithin(texts);
    BracketBalanced(open, Join(texts), close);
  }

  /** A text that the scanner walks over, and not the empty one. */
  ghost predicate Token(t: string) { t != "" && Balanced(t) }

  lemma {:induction false} CanonicalBalanced(v: Json, le: Comparison)
    requires KeyOrder(le) && WellFormed(v)
    ensures Token(Canonical(v, le))
    decreases v
  {
    match v
    case Null => PlainBalanced("null");
    case Bool(b) => PlainBalanced(if b then "true" else "false");
    case Number(text) => NumberBalanced(text);
    case Str(s) => QuoteBalanced(s);
    case Arr(items) =>
      forall i | 0 <= i < |items| ensures Token(Texts(items, le)[i]) { CanonicalBalanced(items[i], le); }
      ListBalanced('[', Texts(items, le), ']');
    case Obj(fields) =>
      forall i | 0 <= i < |fields| ensures Token(Canonical(fields[i].value, le)) { CanonicalBalanced(fields[i].value, le); }
      MemberTokens(fields, le);
      ListBalanced('{', MemberTexts(Sort(Members(fields, le), ByMember(le))), '}');
  }

  // ---- Equal texts, equal trees ------------------------------------------------------------------

  lemma {:induction false} MemberDecodes(m: Member, n: Member)
    requires MemberText(m) == MemberText(n)
    ensures m == n
  {
    assert MemberText(m) == Quote(m.key) + (":" + m.text) && MemberText(n) == Quote(n.key) + (":" + n.text);
    QuoteDecodes(m.key, ":" + m.text, n.key, ":" + n.text);
    assert m.text == (":" + m.text)[1..] && n.text == (":" + n.text)[1..];
  }

  /** The text in between a pair of brackets. */
  lemma {:induction false} Unbracket(open: char, a: string, b: string, close: char)
    requires [open] + a + [close] == [open] + b + [close]
    ensures a == b
  {
    assert a == ([open] + a + [close])[1..|a| + 1] && b == ([open] + b + [close])[1..|b| + 1];
    assert |[open] + a + [close]| == |a| + 2 && |[open] + b + [close]| == |b| + 2;
  }

  /** Objects printed to the same text, under one order or two, have the same printed members in the same order. */
  lemma {:induction false} SameMembers(f: seq<Field>, g: seq<Field>, le: Comparison, me: Comparison)
    requires KeyOrder(le) && KeyOrder(me)
    requires forall i | 0 <= i < |f| :: WellFormed(f[i].value)
    requires forall i | 0 <= i < |g| :: WellFormed(g[i].value)
    requires Canonical(Obj(f), le) == Canonical(Obj(g), me)
    ensures Sort(Members(f, le), ByMember(le)) == Sort(Members(g, me), ByMember(me))
  {
    var s, t := Sort(Members(f, le), ByMember(le)), Sort(Members(g, me), ByMember(me));
    forall i | 0 <= i < |f| ensures Balanced(Canonical(f[i].value, le)) { CanonicalBalanced(f[i].value, le); }
    forall i | 0 <= i < |g| ensures Balanced(Canonical(g[i].value, me)) { CanonicalBalanced(g[i].value, me); }
    MemberTokens(f, le);
    MemberTokens(g, me);
    Unbracket('{', Join(MemberTexts(s)), Join(MemberTexts(t)), '}');
    JoinInjective(MemberTexts(s), MemberTexts(t));
    assert |s| == |MemberTexts(s)| == |MemberTexts(t)| == |t|;
    forall i | 0 <= i < |s| ensures s[i] == t[i] {
      assert MemberTexts(s)[i] == MemberTexts(t)[i];
      MemberDecodes(s[i], t[i]);
    }
  }

  lemma {:induction false} SameTexts(xs: seq<Json>, ys: seq<Json>, le: Comparison, me: Comparison)
    requires KeyOrder(le) && KeyOrder(me)
    requires (forall i | 0 <= i < |xs| :: WellFormed(xs[i])) && forall i | 0 <= i < |ys| :: WellFormed(ys[i])
    requires Canonical(Arr(xs), le) == Canonical(Arr(ys), me)
    ensures |xs| == |ys| && forall i | 0 <= i < |xs| :: Canonical(xs[i], le) == Canonical(ys[i], me)
  {
    var s, t := Texts(xs, le), Texts(ys, me);
    forall i | 0 <= i < |xs| ensures Balanced(s[i]) && s[i] != "" { CanonicalBalanced(xs[i], le); }
    forall i | 0 <= i < |ys| ensures Balanced(t[i]) && t[i] != "" { CanonicalBalanced(ys[i], me); }
    Unbracket('[', Join(s), Join(t), ']');
    JoinInjective(s, t);
    assert |xs| == |s| == |t| == |ys|;
    forall i | 0 <= i < |xs| ensures Canonical(xs[i], le) == Canonical(ys[i], me) { assert s[i] == t[i]; }
  }

  /** The first character tells the kind of a value. */
  predicate StartsAs(v: Json, c: char) {
    match v
    case Null => c == 'n'
    case Bool(b) => c == if b then 't' else 'f'
    case Number(_) => c == '-' || '0' <= c <= '9'
    case Str(_) => c == '\"'
    case Arr(_) => c == '['
    case Obj(_) => c == '{'
  }

  lemma {:induction false} CanonicalStarts(v: Json, le: Comparison)
    requires WellFormed(v)
    ensures Canonical(v, le) != "" && StartsAs(v, Canonical(v, le)[0])
  {}

  lemma {:induction false} TextDetermines(a: Json, b: Json, le: Comparison)
    requires KeyOrder(le) && WellFormed(a) && WellFormed(b) && Canonical(a, le) == Canonical(b, le)
    ensures Same(a, b)
    decreases a
  {
    CanonicalStarts(a, le);
    CanonicalStarts(b, le);
    match a
    case Str(s) =>
      assert Quote(s) + "" == Quote(s) && Quote(b.s) + "" == Quote(b.s);
      QuoteDecodes(s, "", b.s, "");
    case Arr(xs) =>
      SameTexts(xs, b.items, le, le);
      forall i | 0 <= i < |xs| ensures Same(xs[i], b.items[i]) { TextDetermines(xs[i], b.items[i], le); }
    case Obj(f) =>
      var g := b.fields;
      SameMembers(f, g, le, le);
      MembersSort(Members(f, le), le);
      MembersSort(Members(g, le), le);
      forall i | 0 <= i < |f| ensures HasSame(g, f[i]) {
        assert Members(f, le)[i] in multiset(Members(g, le));
        var j :| 0 <= j < |g| && Members(g, le)[j] == Members(f, le)[i];
        TextDetermines(f[i].value, g[j].value, le);
      }
    case _ =>
  }

  // ---- Equal trees, equal texts ------------------------------------------------------------------

  /** Two lists of members with distinct keys, one inside the other and of the same length, hold the same members. */
  lemma {:induction false} SameMultiset(s: seq<Member>, t: seq<Member>)
    requires DistinctBy(s, MemberKey()) && DistinctBy(t, MemberKey()) && |s| == |t|
    requires forall m | m in s :: m in t
    ensures multiset(s) == multiset(t)
  {
    forall m ensures multiset(s)[m] <= multiset(t)[m] {
      OnceInMultiset(s, MemberKey(), m);
      if m in s { assert m in multiset(t); }
    }
    assert multiset(s) <= multiset(t);
    assert multiset(t) == multiset(s) + (multiset(t) - multiset(s));
    assert |multiset(t)| == |multiset(s)| + |multiset(t) - multiset(s)|;
  }

  lemma {:induction false} TreeDetermines(a: Json, b: Json, le: Comparison)
    requires KeyOrder(le) && WellFormed(a) && WellFormed(b) && Same(a, b)
    ensures Canonical(a, le) == Canonical(b, le)
    decreases a
  {
    match a
    case Arr(xs) =>
      forall i | 0 <= i < |xs| ensures Texts(xs, le)[i] == Texts(b.items, le)[i] { TreeDetermines(xs[i], b.items[i], le); }
      assert Texts(xs, le) == Texts(b.items, le);
    case Obj(f) =>
      var g := b.fields;
      forall m | m in Members(f, le) ensures m in Members(g, le) {
        var i :| 0 <= i < |f| && Members(f, le)[i] == m;
        assert HasSame(g, f[i]);
        var j :| 0 <= j < |g| && g[j].key == f[i].key && Same(f[i].value, g[j].value);
        TreeDetermines(f[i].value, g[j].value, le);
        assert Members(g, le)[j] == m;
      }
      SameMultiset(Members(f, le), Members(g, le));
      MembersForgetOrder(Members(f, le), Members(g, le), le);
    case _ =>
  }

  /**
   * Under any order of keys, two trees have the same text exactly when they are equal up to the order of object keys, at
   * every depth, whatever quotes, braces, commas and colons their strings hold.
   */
  lemma {:induction false} SameTextExactly(a: Json, b: Json, le: Comparison)
    requires KeyOrder(le) && WellFormed(a) && WellFormed(b)
    ensures Canonical(a, le) == Canonical(b, le) <==> Same(a, b)
  {
    if Canonical(a, le) == Canonical(b, le) { TextDetermines(a, b, le); }
    if Same(a, b) { TreeDetermines(a, b, le); }
  }

  // ---- Two orders of keys ------------------------------------------------------------------------

  /** Two orders of keys agree about the keys of every object. */
  predicate OrdersAgree(v: Json, le: Comparison, me: Comparison)
    decreases v
  {
    match v
    case Arr(items) => forall i | 0 <= i < |items| :: OrdersAgree(items[i], le, me)
    case Obj(fields) =>
      && (forall f, g | f in fields && g in fields :: le(f.key, g.key) <==> me(f.key, g.key))
      && forall i | 0 <= i < |fields| :: OrdersAgree(fields[i].value, le, me)
    case _ => true
  }

  lemma {:induction false} AgreeingOrders(v: Json, le: Comparison, me: Comparison)
    requires KeyOrder(le) && KeyOrder(me) && WellFormed(v) && OrdersAgree(v, le, me)
    ensures Canonical(v, le) == Canonical(v, me)
    decreases v
  {
    match v
    case Arr(items) =>
      forall i | 0 <= i < |items| ensures Texts(items, le)[i] == Texts(items, me)[i] { AgreeingOrders(items[i], le, me); }
      assert Texts(items, le) == Texts(items, me);
    case Obj(fields) =>
      forall i | 0 <= i < |fields| ensures Members(fields, le)[i] == Members(fields, me)[i] {
        AgreeingOrders(fields[i].value, le, me);
      }
      var members := Members(fields, le);
      assert members == Members(fields, me);
      forall m, n | m in members && n in members ensures ByMember(le)(m, n) <==> ByMember(me)(m, n) {
        var i :| 0 <= i < |fields| && members[i] == m;
        var j :| 0 <= j < |fields| && members[j] == n;
        assert fields[i] in fields && fields[j] in fields && m.key == fields[i].key && n.key == fields[j].key;
      }
      SortsAgree(members, le, me);
    case _ =>
  }

  lemma {:induction false} SortsAgree(members: seq<Member>, le: Comparison, me: Comparison)
    requires forall m, n | m in members && n in members :: ByMember(le)(m, n) <==> ByMember(me)(m, n)
    ensures Sort(members, ByMember(le)) == Sort(members, ByMember(me))
  {
    if members != [] {
      SortsAgree(members[1..], le, me);
      var rest := Sort(members[1..], ByMember(le));
      forall m | m in rest ensures m in members {
        SortMultiset(members[1..], ByMember(le));
        assert m in multiset(rest);
      }
      InsertsAgree(members[0], rest, le, me);
    }
  }

  lemma {:induction false} SortMultiset<T>(s: seq<T>, le: (T, T) -> bool)
    ensures multiset(Sort(s, le)) == multiset(s)
  {
    if s != [] {
      SortMultiset(s[1..], le);
      InsertMultiset(s[0], Sort(s[1..], le), le);
      assert s == [s[0]] + s[1..];
    }
  }

  lemma {:induction false} InsertsAgree(m: Member, s: seq<Member>, le: Comparison, me: Comparison)
    requires forall n | n in s :: ByMember(le)(m, n) <==> ByMember(me)(m, n)
    ensures Insert(m, s, ByMember(le)) == Insert(m, s, ByMember(me))
  {
    if s != [] {
      assert s[0] in s;
      InsertsAgree(m, s[1..], le, me);
    }
  }

  lemma {:induction false} MembersAgree(fields: seq<Field>, s: seq<Member>, le: Comparison, me: Comparison)
    requires DistinctBy(fields, FieldKey())
    requires multiset(s) == multiset(Members(fields, le)) == multiset(Members(fields, me))
    ensures forall i | 0 <= i < |fields| ::
      Members(fields, le)[i] in s && Canonical(fields[i].value, le) == Canonical(fields[i].value, me)
  {
    DistinctForgetsOrder(Members(fields, le), s, MemberKey());
    forall i | 0 <= i < |fields|
      ensures Members(fields, le)[i] in s && Canonical(fields[i].value, le) == Canonical(fields[i].value, me)
    {
      assert Members(fields, le)[i] in multiset(s) && Members(fields, me)[i] in multiset(s);
      SameKeySameElement(s, MemberKey(), Members(fields, le)[i], Members(fields, me)[i]);
    }
  }

  /** Members in one order under both comparisons: the comparisons agree about their keys. */
  lemma {:induction false} KeysAgree(fields: seq<Field>, s: seq<Member>, le: Comparison, me: Comparison)
    requires KeyOrder(le) && KeyOrder(me) && SortedBy(s, ByMember(le)) && SortedBy(s, ByMember(me))
    requires forall i | 0 <= i < |fields| :: Members(fields, le)[i] in s
    ensures forall f, g | f in fields && g in fields :: le(f.key, g.key) <==> me(f.key, g.key)
  {
    forall f, g | f in fields && g in fields ensures le(f.key, g.key) <==> me(f.key, g.key) {
      var i :| 0 <= i < |fields| && fields[i] == f;
      var j :| 0 <= j < |fields| && fields[j] == g;
      SortedBothWays(s, Members(fields, le)[i], Members(fields, le)[j], le, me);
    }
  }

  lemma {:induction false} AgreeingMembers(fields: seq<Field>, le: Comparison, me: Comparison)
    requires KeyOrder(le) && KeyOrder(me) && WellFormed(Obj(fields)) && Canonical(Obj(fields), le) == Canonical(Obj(fields), me)
    ensures forall f, g | f in fields && g in fields :: le(f.key, g.key) <==> me(f.key, g.key)
    ensures forall i | 0 <= i < |fields| :: Canonical(fields[i].value, le) == Canonical(fields[i].value, me)
  {
    SameMembers(fields, fields, le, me);
    var s := Sort(Members(fields, le), ByMember(le));
    MembersSort(Members(fields, le), le);
    MembersSort(Members(fields, me), me);
    MembersAgree(fields, s, le, me);
    KeysAgree(fields, s, le, me);
  }

  lemma {:induction false} AgreeingTexts(v: Json, le: Comparison, me: Comparison)
    requires KeyOrder(le) && KeyOrder(me) && WellFormed(v) && Canonical(v, le) == Canonical(v, me)
    ensures OrdersAgree(v, le, me)
    decreases v
  {
    match v
    case Arr(items) =>
      SameTexts(items, items, le, me);
      forall i | 0 <= i < |items| ensures OrdersAgree(items[i], le, me) { AgreeingTexts(items[i], le, me); }
    case Obj(fields) =>
      AgreeingMembers(fields, le, me);
      forall i | 0 <= i < |fields| ensures OrdersAgree(fields[i].value, le, me) { AgreeingTexts(fields[i].value, le, me); }
    case _ =>
  }

  lemma {:induction false} SortedBothWays(s: seq<Member>, m: Member, n: Member, le: Comparison, me: Comparison)
    requires KeyOrder(le) && KeyOrder(me) && SortedBy(s, ByMember(le)) && SortedBy(s, ByMember(me)) && m in s && n in s
    ensures le(m.key, n.key) <==> me(m.key, n.key)
  {
    var i :| 0 <= i < |s| && s[i] == m;
    var j :| 0 <= j < |s| && s[j] == n;
    assert le(m.key, m.key) && me(m.key, m.key);
    if i < j { assert ByMember(le)(s[i], s[j]) && ByMember(me)(s[i], s[j]); }
    if j < i { assert ByMember(le)(s[j], s[i]) && ByMember(me)(s[j], s[i]); }
  }

  /** Texts under two orders are equal exactly when the orders agree about the keys of every object. */
  lemma {:induction false} TextsAgreeExactly(v: Json, le: Comparison, me: Comparison)
    requires KeyOrder(le) && KeyOrder(me) && WellFormed(v)
    ensures Canonical(v, le) == Canonical(v, me) <==> OrdersAgree(v, le, me)
  {
    if OrdersAgree(v, le, me) { AgreeingOrders(v, le, me); }
    if Canonical(v, le) == Canonical(v, me) { AgreeingTexts(v, le, me); }
  }
}
