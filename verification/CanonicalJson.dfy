/**
 * Canonical JSON text: object keys in order at every depth, strings quoted with the escapes of section 7 of RFC 8259. A
 * finite number is carried by its text, which determines it. The order of keys is a parameter: the printer of evidence
 * uses the locale's, the printer of payloads puts array indices first, as properties of an object are listed.
 */
module CanonicalJson {
  import opened Sorting
  import opened Totals
  import opened Keys

  datatype Field = Field(key: string, value: Json)

  datatype Json =
    | Null
    | Bool(b: bool)
    | Number(text: string)
    | Str(s: string)
    | Arr(items: seq<Json>)
    | Obj(fields: seq<Field>)

  // ---- Strings -----------------------------------------------------------------------------------

  function HexDigit(n: nat): char
    requires n < 16
  {
    "0123456789abcdef"[n]
  }

  function Escape(c: char): string {
    match c
    case '\"' => "\\\""
    case '\\' => "\\\\"
    case '\n' => "\\n"
    case '\r' => "\\r"
    case '\t' => "\\t"
    case _ =>
      if c as int == 8 then "\\b"
      else if c as int == 12 then "\\f"
      else if c as int < 32 then "\\u00" + [HexDigit(c as int / 16), HexDigit(c as int % 16)]
      else [c]
  }

  function EscapeAll(s: string): string { if s == [] then [] else Escape(s[0]) + EscapeAll(s[1..]) }

  function Quote(s: string): string { "\"" + EscapeAll(s) + "\"" }

  // ---- The printer -------------------------------------------------------------------------------

  /** An object member once its value is printed. */
  datatype Member = Member(key: string, text: string)

  function MemberKey(): Member -> string { (m: Member) => m.key }

  /** Whether a key may stand before another. */
  type Comparison = (string, string) -> bool

  /** An order of keys in which no two different keys tie. */
  ghost predicate KeyOrder(le: Comparison) {
    TotalPreorder(le) && forall a, b :: le(a, b) && le(b, a) ==> a == b
  }

  function ByMember(le: Comparison): (Member, Member) -> bool { (m: Member, n: Member) => le(m.key, n.key) }

  function MemberText(m: Member): string { Quote(m.key) + ":" + m.text }

  function Join(texts: seq<string>): string {
    if texts == [] then "" else if |texts| == 1 then texts[0] else texts[0] + "," + Join(texts[1..])
  }

  function MemberTexts(members: seq<Member>): seq<string> { seq(|members|, i requires 0 <= i < |members| => MemberText(members[i])) }

  function Texts(items: seq<Json>, le: Comparison): seq<string> {
    seq(|items|, i requires 0 <= i < |items| => Canonical(items[i], le))
  }

  function Members(fields: seq<Field>, le: Comparison): seq<Member> {
    seq(|fields|, i requires 0 <= i < |fields| => Member(fields[i].key, Canonical(fields[i].value, le)))
  }

  function Canonical(v: Json, le: Comparison): string
    decreases v
  {
    match v
    case Null => "null"
    case Bool(b) => if b then "true" else "false"
    case Number(text) => text
    case Str(s) => Quote(s)
    case Arr(items) => "[" + Join(Texts(items, le)) + "]"
    case Obj(fields) => "{" + Join(MemberTexts(Sort(Members(fields, le), ByMember(le)))) + "}"
  }
}
