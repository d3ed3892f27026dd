/**
 * The text by which stored payloads are hashed. The tree is rebuilt with its keys sorted and the values under sensitive
 * keys replaced; the language then prints it, and lists keys that are array indices first, in ascending order, whatever
 * order they were put in. Which keys are sensitive is a parameter, and so is the order of keys by locale.
 */
module PayloadJson {
  import opened Sorting
  import opened TextOrder
  import opened Totals
  import opened Keys
  import opened Decimals
  import opened CanonicalJson
  import opened CanonicalJsonLaws

  // ---- Rebuilding the tree -----------------------------------------------------------------------

  type Sensitive = string -> bool

  const Redacted := Str("[REDACTED]")

  function ByField(le: Comparison): (Field, Field) -> bool { (f: Field, g: Field) => le(f.key, g.key) }

  function Normalize(v: Json, sensitive: Sensitive, le: Comparison): Json
    decreases v
  {
    match v
    case Arr(items) => Arr(seq(|items|, i requires 0 <= i < |items| => Normalize(items[i], sensitive, le)))
    case Obj(fields) => Obj(Sort(NormalizeFields(fields, sensitive, le), ByField(le)))
    case _ => v
  }

  function NormalizeFields(fields: seq<Field>, sensitive: Sensitive, le: Comparison): seq<Field> {
    seq(|fields|, i requires 0 <= i < |fields| =>
      Field(fields[i].key, if sensitive(fields[i].key) then Redacted else Normalize(fields[i].value, sensitive, le)))
  }

  // ---- Printing an object as the language does ---------------------------------------------------

  /** Keys that a number gives back when printed, below the largest length of an array. */
  predicate IsIndex(key: string) {
    key != "" && AllDigits(key) && Print(Read(key)) == key && Read(key) < 4294967295
  }

  /** The indices are the canonical decimals below the largest array length. */
  lemma {:induction false} IndexExactly(n: nat, key: string)
    ensures IsIndex(Print(n)) <==> n < 4294967295
    ensures IsIndex(key) ==> key == Print(Read(key)) && Read(key) < 4294967295
  {
    PrintReads(n);
  }

  function IndexOf(key: string): nat { if IsIndex(key) then Read(key) else 0 }

  function ByIndex(): (Member, Member) -> bool { (m: Member, n: Member) => IndexOf(m.key) <= IndexOf(n.key) }

  function Indices(): Member -> seq<Member> { (m: Member) => if IsIndex(m.key) then [m] else [] }

  function Names(): Member -> seq<Member> { (m: Member) => if IsIndex(m.key) then [] else [m] }

  /** Indices in ascending order, then the other keys in the order they were put in. */
  function Listing(members: seq<Member>): seq<Member> {
    Sort(Collect(members, Indices()), ByIndex()) + Collect(members, Names())
  }

  function Stringify(v: Json): string
    decreases v
  {
    match v
    case Arr(items) => "[" + Join(seq(|items|, i requires 0 <= i < |items| => Stringify(items[i]))) + "]"
    case Obj(fields) => "{" + Join(MemberTexts(Listing(Printed(fields)))) + "}"
    case Null => "null"
    case Bool(b) => if b then "true" else "false"
    case Number(text) => text
    case Str(s) => Quote(s)
  }

  function Printed(fields: seq<Field>): seq<Member> {
    seq(|fields|, i requires 0 <= i < |fields| => Member(fields[i].key, Stringify(fields[i].value)))
  }

  function NoneSensitive(): Sensitive { (key: string) => false }

  /** The text whose digest is stored beside a payload. */
  function PayloadText(v: Json, le: Comparison): string { Stringify(Normalize(v, NoneSensitive(), le)) }

  // ---- The order in which keys are listed --------------------------------------------------------

  predicate Before(a: string, b: string, le: Comparison) {
    if IsIndex(a) then IsIndex(b) ==> Read(a) <= Read(b) else !IsIndex(b) && le(a, b)
  }

  function Listed(le: Comparison): Comparison { (a: string, b: string) => Before(a, b, le) }

  lemma {:induction false} ListedIsKeyOrder(le: Comparison)
    requires KeyOrder(le)
    ensures KeyOrder(Listed(le))
  {
    forall a: string, b: string
      ensures Listed(le)(a, b) || Listed(le)(b, a)
      ensures Listed(le)(a, b) && Listed(le)(b, a) ==> a == b
    {
      assert le(a, b) || le(b, a);
    }
    forall a: string, b: string, c: string | Listed(le)(a, b) && Listed(le)(b, c) ensures Listed(le)(a, c) {
      assert !IsIndex(a) ==> le(a, b) && le(b, c);
    }
  }

  lemma {:induction false} SelectionSorted<T>(s: seq<T>, keep: T -> seq<T>, le: (T, T) -> bool)
    requires SortedBy(s, le) && Selects(s, keep)
    ensures SortedBy(Collect(s, keep), le)
  {
    if s != [] {
      var prefix, last := s[..|s| - 1], s[|s| - 1];
      SelectionSorted(prefix, keep, le);
      var picked := Collect(prefix, keep);
      forall i | 0 <= i < |picked| ensures le(picked[i], last) {
        assert picked[i] in picked;
        SelectedExactly(prefix, keep, picked[i]);
        var k :| 0 <= k < |prefix| && prefix[k] == picked[i];
        assert le(s[k], s[|s| - 1]);
      }
      assert last in s;
    }
  }

  lemma {:induction false} IndicesListed(members: seq<Member>, m: Member)
    ensures m in Sort(Collect(members, Indices()), ByIndex()) <==> m in members && IsIndex(m.key)
  {
    var picked := Collect(members, Indices());
    SortCorrect(picked, ByIndex());
    assert m in multiset(Sort(picked, ByIndex())) <==> m in multiset(picked);
    SelectedExactly(members, Indices(), m);
  }

  /** What the language lists is what a sort by the listing order gives. */
  lemma {:induction false} ListingSorts(members: seq<Member>, le: Comparison)
    requires KeyOrder(le) && DistinctBy(members, MemberKey())
    ensures Listing(Sort(members, ByMember(le))) == Sort(members, ByMember(Listed(le)))
  {
    var s := Sort(members, ByMember(le));
    MembersSort(members, le);
    ListingIsSorted(s, le);
    ListedIsKeyOrder(le);
    MembersSort(members, Listed(le));
    forall m, n | m in Listing(s) && n in Listing(s) && ByMember(Listed(le))(m, n) && ByMember(Listed(le))(n, m)
      ensures m == n
    {
      assert m in multiset(Listing(s)) && n in multiset(Listing(s)) && m.key == n.key;
      assert m in multiset(members) && n in multiset(members);
      SameKeySameElement(members, MemberKey(), m, n);
    }
    SortedUnique(Listing(s), Sort(members, ByMember(Listed(le))), ByMember(Listed(le)));
  }

  lemma {:induction false} ListingIsSorted(s: seq<Member>, le: Comparison)
    requires SortedBy(s, ByMember(le))
    ensures SortedBy(Listing(s), ByMember(Listed(le))) && multiset(Listing(s)) == multiset(s)
  {
    var indices, names := Collect(s, Indices()), Collect(s, Names());
    SortCorrect(indices, ByIndex());
    SelectionSorted(s, Names(), ByMember(le));
    CollectShares(s, Indices(), Names(), (m: Member) => [m]);
    CollectAll(s);
    var first := Sort(indices, ByIndex());
    forall i, j | 0 <= i < j < |first| + |names| ensures ByMember(Listed(le))(Listing(s)[i], Listing(s)[j]) {
      var m, n := Listing(s)[i], Listing(s)[j];
      if i < |first| { IndicesListed(s, m); assert m == first[i]; } else { SelectedExactly(s, Names(), m); }
      if j < |first| { IndicesListed(s, n); assert n == first[j]; } else { SelectedExactly(s, Names(), n); }
    }
  }

  lemma {:induction false} CollectAll(s: seq<Member>)
    ensures Collect(s, (m: Member) => [m]) == s
  {
    CollectMap(s, (m: Member) => [m]);
  }

  // ---- Sorting commutes with printing ------------------------------------------------------------

  lemma {:induction false} InsertPrinted(f: Field, s: seq<Field>, le: Comparison)
    ensures Printed(Insert(f, s, ByField(le))) == Insert(Member(f.key, Stringify(f.value)), Printed(s), ByMember(le))
  {
    if s != [] && !le(f.key, s[0].key) {
      InsertPrinted(f, s[1..], le);
      assert Printed(s)[1..] == Printed(s[1..]);
      assert s == [s[0]] + s[1..];
    }
  }

  lemma {:induction false} SortPrinted(s: seq<Field>, le: Comparison)
    ensures Printed(Sort(s, ByField(le))) == Sort(Printed(s), ByMember(le))
  {
    if s != [] {
      SortPrinted(s[1..], le);
      InsertPrinted(s[0], Sort(s[1..], ByField(le)), le);
      assert Printed(s)[1..] == Printed(s[1..]);
    }
  }

  // ---- The printer as a canonical one ------------------------------------------------------------

  /** The tree with the values under sensitive keys replaced. */
  function Redact(v: Json, sensitive: Sensitive): Json
    decreases v
  {
    match v
    case Arr(items) => Arr(seq(|items|, i requires 0 <= i < |items| => Redact(items[i], sensitive)))
    case Obj(fields) =>
      Obj(seq(|fields|, i requires 0 <= i < |fields| =>
        Field(fields[i].key, if sensitive(fields[i].key) then Redacted else Redact(fields[i].value, sensitive))))
    case _ => v
  }

  lemma {:induction false} RedactKeepsForm(v: Json, sensitive: Sensitive)
    requires WellFormed(v)
    ensures WellFormed(Redact(v, sensitive))
    decreases v
  {
    match v
    case Arr(items) =>
      forall i | 0 <= i < |items| ensures WellFormed(Redact(items[i], sensitive)) { RedactKeepsForm(items[i], sensitive); }
    case Obj(fields) =>
      var redacted := Redact(v, sensitive).fields;
      forall i | 0 <= i < |fields| ensures WellFormed(redacted[i].value) { RedactKeepsForm(fields[i].value, sensitive); }
      forall i, j | 0 <= i < j < |fields| ensures FieldKey()(redacted[i]) != FieldKey()(redacted[j]) {
        assert FieldKey()(fields[i]) != FieldKey()(fields[j]);
      }
    case _ =>
  }

  /** Rebuilding and then printing is the canonical text of the redacted tree under the listing order. */
  lemma {:induction false} PrintsCanonically(v: Json, sensitive: Sensitive, le: Comparison)
    requires KeyOrder(le) && WellFormed(v)
    ensures Stringify(Normalize(v, sensitive, le)) == CanonicalJson.Canonical(Redact(v, sensitive), Listed(le))
    decreases v
  {
    match v
    case Arr(items) =>
      var normal, redacted := Normalize(v, sensitive, le).items, Redact(v, sensitive).items;
      forall i | 0 <= i < |items| ensures Stringify(normal[i]) == CanonicalJson.Canonical(redacted[i], Listed(le)) {
        PrintsCanonically(items[i], sensitive, le);
      }
      assert seq(|normal|, i requires 0 <= i < |normal| => Stringify(normal[i])) == Texts(redacted, Listed(le));
    case Obj(fields) =>
      var normal, redacted := NormalizeFields(fields, sensitive, le), Redact(v, sensitive).fields;
      forall i | 0 <= i < |fields| ensures Printed(normal)[i] == Members(redacted, Listed(le))[i] {
        if !sensitive(fields[i].key) { PrintsCanonically(fields[i].value, sensitive, le); }
      }
      assert Printed(normal) == Members(redacted, Listed(le));
      RedactKeepsForm(v, sensitive);
      SortPrinted(normal, le);
      ListingSorts(Printed(normal), le);
    case _ =>
  }

  lemma {:induction false} NothingRedacted(v: Json)
    ensures Redact(v, NoneSensitive()) == v
    decreases v
  {
    match v
    case Arr(items) =>
      forall i | 0 <= i < |items| ensures Redact(items[i], NoneSensitive()) == items[i] { NothingRedacted(items[i]); }
      assert Redact(v, NoneSensitive()).items == items;
    case Obj(fields) =>
      forall i | 0 <= i < |fields| ensures Redact(fields[i].value, NoneSensitive()) == fields[i].value {
        NothingRedacted(fields[i].value);
      }
      assert Redact(v, NoneSensitive()).fields == fields;
    case _ =>
  }

  /** Both printers identify the same trees. */
  lemma {:induction false} PayloadTextExactly(a: Json, b: Json, le: Comparison)
    requires KeyOrder(le) && WellFormed(a) && WellFormed(b)
    ensures PayloadText(a, le) == PayloadText(b, le) <==> Same(a, b)
  {
    PrintsCanonically(a, NoneSensitive(), le);
    PrintsCanonically(b, NoneSensitive(), le);
    NothingRedacted(a);
    NothingRedacted(b);
    ListedIsKeyOrder(le);
    SameTextExactly(a, b, Listed(le));
  }

  /** No object has an array index behind a key that is none, or behind a larger index. */
  predicate IndicesLead(v: Json, le: Comparison)
    decreases v
  {
    match v
    case Arr(items) => forall i | 0 <= i < |items| :: IndicesLead(items[i], le)
    case Obj(fields) =>
      && (forall f, g | f in fields && g in fields && IsIndex(g.key) && le(f.key, g.key) ::
        IsIndex(f.key) && Read(f.key) <= Read(g.key))
      && forall i | 0 <= i < |fields| :: IndicesLead(fields[i].value, le)
    case _ => true
  }

  lemma {:induction false} IndicesLeadExactly(v: Json, le: Comparison)
    requires KeyOrder(le)
    ensures OrdersAgree(v, le, Listed(le)) <==> IndicesLead(v, le)
    decreases v
  {
    match v
    case Arr(items) =>
      forall i | 0 <= i < |items| ensures OrdersAgree(items[i], le, Listed(le)) <==> IndicesLead(items[i], le) {
        IndicesLeadExactly(items[i], le);
      }
    case Obj(fields) =>
      forall i | 0 <= i < |fields| ensures OrdersAgree(fields[i].value, le, Listed(le)) <==> IndicesLead(fields[i].value, le) {
        IndicesLeadExactly(fields[i].value, le);
      }
      if IndicesLead(v, le) {
        forall f, g | f in fields && g in fields ensures le(f.key, g.key) <==> Listed(le)(f.key, g.key) {
          assert le(f.key, g.key) || le(g.key, f.key);
        }
      }
    case _ =>
  }

  /** The two printers agree on a tree exactly when the order of keys lists its array indices first and ascending. */
  lemma {:induction false} PrintersAgreeExactly(v: Json, le: Comparison)
    requires KeyOrder(le) && WellFormed(v)
    ensures CanonicalJson.Canonical(v, le) == PayloadText(v, le) <==> IndicesLead(v, le)
  {
    PrintsCanonically(v, NoneSensitive(), le);
    NothingRedacted(v);
    ListedIsKeyOrder(le);
    TextsAgreeExactly(v, le, Listed(le));
    IndicesLeadExactly(v, le);
  }

  // ---- What a stored payload is --------------------------------------------------------------------

  lemma {:induction false} FieldsSort(fields: seq<Field>, le: Comparison)
    requires KeyOrder(le)
    ensures var s := Sort(fields, ByField(le)); |s| == |fields| && multiset(s) == multiset(fields)
  {
    forall f: Field, g: Field ensures ByField(le)(f, g) || ByField(le)(g, f) {
      assert le(f.key, g.key) || le(g.key, f.key);
    }
    forall f: Field, g: Field, h: Field | ByField(le)(f, g) && ByField(le)(g, h) ensures ByField(le)(f, h) {
      assert le(f.key, g.key) && le(g.key, h.key);
    }
    SortCorrect(fields, ByField(le));
  }

  lemma {:induction false} ReorderedFieldsSame(f: seq<Field>, g: seq<Field>, h: seq<Field>)
    requires multiset(f) == multiset(g) && |f| == |g| == |h| && WellFormed(Obj(f))
    requires forall i | 0 <= i < |f| :: f[i].key == h[i].key && Same(f[i].value, h[i].value)
    ensures WellFormed(Obj(g)) && Same(Obj(g), Obj(h))
  {
    DistinctForgetsOrder(f, g, FieldKey());
    forall i | 0 <= i < |g|
      ensures WellFormed(g[i].value)
      ensures HasSame(h, g[i])
    {
      assert g[i] in multiset(f);
      var j :| 0 <= j < |f| && f[j] == g[i];
      assert h[j].key == g[i].key && Same(g[i].value, h[j].value);
    }
  }

  /** The rebuilt tree is the redacted one with its keys in another order. */
  lemma {:induction false} NormalIsRedacted(v: Json, sensitive: Sensitive, le: Comparison)
    requires KeyOrder(le) && WellFormed(v)
    ensures WellFormed(Normalize(v, sensitive, le)) && Same(Normalize(v, sensitive, le), Redact(v, sensitive))
    decreases v
  {
    match v
    case Arr(items) =>
      var normal, redacted := Normalize(v, sensitive, le).items, Redact(v, sensitive).items;
      forall i | 0 <= i < |items| ensures WellFormed(normal[i]) && Same(normal[i], redacted[i]) {
        NormalIsRedacted(items[i], sensitive, le);
      }
    case Obj(fields) =>
      var unsorted, redacted := NormalizeFields(fields, sensitive, le), Redact(v, sensitive).fields;
      forall i | 0 <= i < |fields| ensures WellFormed(unsorted[i].value) && Same(unsorted[i].value, redacted[i].value) {
        if !sensitive(fields[i].key) { NormalIsRedacted(fields[i].value, sensitive, le); }
      }
      forall i, j | 0 <= i < j < |fields| ensures FieldKey()(unsorted[i]) != FieldKey()(unsorted[j]) {
        assert FieldKey()(fields[i]) != FieldKey()(fields[j]);
      }
      FieldsSort(unsorted, le);
      ReorderedFieldsSame(unsorted, Sort(unsorted, ByField(le)), redacted);
    case _ =>
  }

  /** Equal up to key order and up to the values under sensitive keys, at every depth. */
  predicate SameButSecrets(a: Json, b: Json, sensitive: Sensitive)
    decreases a
  {
    match (a, b)
    case (Arr(xs), Arr(ys)) => |xs| == |ys| && forall i | 0 <= i < |xs| :: SameButSecrets(xs[i], ys[i], sensitive)
    case (Obj(f), Obj(g)) => |f| == |g| && forall i | 0 <= i < |f| :: HasSameButSecrets(g, f[i], sensitive)
    case (Arr(_), _) => false
    case (Obj(_), _) => false
    case (_, _) => a == b
  }

  predicate HasSameButSecrets(fields: seq<Field>, field: Field, sensitive: Sensitive)
    decreases field
  {
    exists j :: 0 <= j < |fields| && fields[j].key == field.key && SameButSecret(field, fields[j], sensitive)
  }

  predicate SameButSecret(field: Field, other: Field, sensitive: Sensitive)
    decreases field, 0
  {
    sensitive(field.key) || SameButSecrets(field.value, other.value, sensitive)
  }

  lemma {:induction false} RedactedSame(a: Json, b: Json, sensitive: Sensitive)
    ensures Same(Redact(a, sensitive), Redact(b, sensitive)) <==> SameButSecrets(a, b, sensitive)
    decreases a
  {
    match (a, b)
    case (Arr(xs), Arr(ys)) =>
      if |xs| == |ys| {
        forall i | 0 <= i < |xs|
          ensures Same(Redact(a, sensitive).items[i], Redact(b, sensitive).items[i]) <==> SameButSecrets(xs[i], ys[i], sensitive)
        {
          RedactedSame(xs[i], ys[i], sensitive);
        }
      }
    case (Obj(f), Obj(g)) =>
      var p, q := Redact(a, sensitive).fields, Redact(b, sensitive).fields;
      forall i, j | 0 <= i < |f| && 0 <= j < |g| && g[j].key == f[i].key
        ensures Same(p[i].value, q[j].value) <==> SameButSecret(f[i], g[j], sensitive)
      {
        if !sensitive(f[i].key) { RedactedSame(f[i].value, g[j].value, sensitive); }
      }
      forall i | 0 <= i < |f| ensures HasSame(q, p[i]) <==> HasSameButSecrets(g, f[i], sensitive) {
        if j :| 0 <= j < |q| && q[j].key == p[i].key && Same(p[i].value, q[j].value) {
          assert g[j].key == f[i].key && SameButSecret(f[i], g[j], sensitive);
        }
        if j :| 0 <= j < |g| && g[j].key == f[i].key && SameButSecret(f[i], g[j], sensitive) {
          assert q[j].key == p[i].key && Same(p[i].value, q[j].value);
        }
      }
    case (_, _) =>
  }

  /**
   * The digest stored beside a payload says everything about it but the sensitive values: two payloads are stored under
   * the same text exactly when they are equal up to key order and sensitive values.
   */
  lemma {:induction false} StoredTextExactly(a: Json, b: Json, sensitive: Sensitive, le: Comparison)
    requires KeyOrder(le) && WellFormed(a) && WellFormed(b)
    ensures PayloadText(Normalize(a, sensitive, le), le) == PayloadText(Normalize(b, sensitive, le), le)
      <==> SameButSecrets(a, b, sensitive)
  {
    StoredText(a, sensitive, le);
    StoredText(b, sensitive, le);
    RedactKeepsForm(a, sensitive);
    RedactKeepsForm(b, sensitive);
    PayloadTextExactly(Redact(a, sensitive), Redact(b, sensitive), le);
    RedactedSame(a, b, sensitive);
  }

  /** Rebuilding a stored payload once more, or reading it back with its keys in another order, leaves its text. */
  lemma {:induction false} StoredText(v: Json, sensitive: Sensitive, le: Comparison)
    requires KeyOrder(le) && WellFormed(v)
    ensures PayloadText(Normalize(v, sensitive, le), le) == PayloadText(Redact(v, sensitive), le)
      == Stringify(Normalize(v, sensitive, le))
    ensures forall read: Json | WellFormed(read) && Same(read, Normalize(v, sensitive, le)) ::
      PayloadText(read, le) == PayloadText(Normalize(v, sensitive, le), le)
  {
    var normal, redacted := Normalize(v, sensitive, le), Redact(v, sensitive);
    NormalIsRedacted(v, sensitive, le);
    RedactKeepsForm(v, sensitive);
    PayloadTextExactly(normal, redacted, le);
    PrintsCanonically(v, sensitive, le);
    PrintsCanonically(redacted, NoneSensitive(), le);
    NothingRedacted(redacted);
    forall read: Json | WellFormed(read) && Same(read, normal) ensures PayloadText(read, le) == PayloadText(normal, le) {
      PayloadTextExactly(read, normal, le);
    }
  }
}
