/** The JSON text of the composite cursor (RFC 8259): an object whose members
    are all strings, as `JSON.stringify` writes a `Record<string, string>` and
    as `JSON.parse` reads it back. Only strings without escapes are covered. */
module CursorJson {
  import opened Common

  /** One `"key":"value"` member, in insertion order. */
  type Entry = (string, string)

  /** A character that JSON writes as itself inside a string (the `unescaped`
      rule of section 7 of RFC 8259): neither a control character, nor `"`, nor `\`. */
  predicate IsPlainChar(c: char) {
    c >= ' ' && c != '"' && c != '\\'
  }

  predicate IsPlainText(s: string) {
    forall i :: 0 <= i < |s| ==> IsPlainChar(s[i])
  }

  predicate IsPlainObject(es: seq<Entry>) {
    forall i :: 0 <= i < |es| ==> IsPlainText(es[i].0) && IsPlainText(es[i].1)
  }

  function Quote(s: string): string {
    "\"" + s + "\""
  }

  function Member(e: Entry): string {
    Quote(e.0) + ":" + Quote(e.1)
  }

  function Members(es: seq<Entry>): string {
    if |es| == 0 then ""
    else if |es| == 1 then Member(es[0])
    else Member(es[0]) + "," + Members(es[1..])
  }

  /** `JSON.stringify(record)`, which writes no whitespace and keeps insertion order. */
  function Stringify(es: seq<Entry>): string
    requires IsPlainObject(es)
  {
    "{" + Members(es) + "}"
  }

  /** The characters of a string after its opening quote, up to the closing quote,
      and what follows it. */
  function StringBody(s: string): (r: Option<(string, string)>)
    ensures r.Some? ==> s == r.value.0 + "\"" + r.value.1 && IsPlainText(r.value.0)
  {
    if s == [] then None
    else if s[0] == '"' then Some(("", s[1..]))
    else if !IsPlainChar(s[0]) then None
    else match StringBody(s[1..])
      case None => None
      case Some(r) => Some(([s[0]] + r.0, r.1))
  }

  /** A JSON string token at the start of `s`, and the rest of the input. */
  function ParseString(s: string): (r: Option<(string, string)>)
    ensures r.Some? ==> s == Quote(r.value.0) + r.value.1 && IsPlainText(r.value.0)
  {
    if s == [] || s[0] != '"' then None
    else match StringBody(s[1..])
      case None => None
      case Some(r) =>
        assert s == "\"" + s[1..];
        Some(r)
  }

  /** A `"key":"value"` member at the start of `s`, and the rest of the input. */
  function ParseMember(s: string): (r: Option<(Entry, string)>)
    ensures r.Some? ==> s == Member(r.value.0) + r.value.1
    ensures r.Some? ==> IsPlainText(r.value.0.0) && IsPlainText(r.value.0.1)
  {
    match ParseString(s)
    case None => None
    case Some((k, r1)) =>
      if r1 == [] || r1[0] != ':' then None
      else match ParseString(r1[1..])
        case None => None
        case Some((v, r2)) =>
          JoinMember(s, k, r1, v, r2);
          Some(((k, v), r2))
  }

  /** A key token, a colon, then a value token and the rest make one member and the rest. */
  lemma JoinMember(s: string, k: string, r1: string, v: string, r2: string)
    requires s == Quote(k) + r1 && |r1| > 0 && r1[0] == ':' && r1[1..] == Quote(v) + r2
    ensures s == Member((k, v)) + r2
  {
    assert r1 == ":" + r1[1..];
  }

  /** The members after `{` up to the closing `}`, which must end the input. */
  function ParseMembers(s: string): (r: Option<seq<Entry>>)
    ensures r.Some? ==> |r.value| > 0 && IsPlainObject(r.value) && s == Members(r.value) + "}"
    decreases |s|
  {
    match ParseMember(s)
    case None => None
    case Some((e, rest)) =>
      if rest == "}" then
        MembersSingle(e);
        Some([e])
      else if rest == [] || rest[0] != ',' then None
      else match ParseMembers(rest[1..])
        case None => None
        case Some(es) =>
          JoinMembers(Member(e), rest, Members(es));
          MembersCons(e, es);
          Some([e] + es)
  }

  lemma MembersSingle(e: Entry)
    ensures Members([e]) == Member(e)
  {
    assert [e][0] == e;
  }

  lemma MembersCons(e: Entry, es: seq<Entry>)
    requires |es| > 0
    ensures Members([e] + es) == Member(e) + "," + Members(es)
  {
    assert ([e] + es)[0] == e && ([e] + es)[1..] == es;
  }

  /** A member, then a comma and the rest of the list, then the closing brace. */
  lemma JoinMembers(m: string, rest: string, ms: string)
    requires |rest| > 0 && rest[0] == ',' && rest[1..] == ms + "}"
    ensures m + rest == (m + "," + ms) + "}"
  {
    assert rest == "," + rest[1..];
  }

  /** `JSON.parse(s)` when `s` is an object of plain strings; `None` for any other text. */
  function Parse(s: string): (r: Option<seq<Entry>>)
    ensures r.Some? ==> IsPlainObject(r.value) && s == Stringify(r.value)
  {
    if s == "{}" then Some([])
    else if s == [] || s[0] != '{' then None
    else match ParseMembers(s[1..])
      case None => None
      case Some(es) =>
        JoinObject(s, es);
        Some(es)
  }

  /** An opening brace followed by the members and the closing brace is the object text. */
  lemma JoinObject(s: string, es: seq<Entry>)
    requires IsPlainObject(es) && |s| > 0 && s[0] == '{' && s[1..] == Members(es) + "}"
    ensures s == Stringify(es)
  {
    assert s == "{" + s[1..];
  }

  lemma {:induction false} StringBodyOf(b: string, rest: string)
    requires IsPlainText(b)
    ensures StringBody(b + "\"" + rest) == Some((b, rest))
  {
    var s := b + "\"" + rest;
    if b != [] {
      assert s[0] == b[0];
      assert s[1..] == b[1..] + "\"" + rest;
      StringBodyOf(b[1..], rest);
      assert [b[0]] + b[1..] == b;
    } else {
      assert s[1..] == rest;
    }
  }

  lemma MemberOf(e: Entry, rest: string)
    requires IsPlainText(e.0) && IsPlainText(e.1)
    ensures ParseMember(Member(e) + rest) == Some((e, rest))
  {
    var s := Member(e) + rest;
    var r1 := ":" + Quote(e.1) + rest;
    assert s == "\"" + (e.0 + "\"" + r1);
    assert s[1..] == e.0 + "\"" + r1;
    StringBodyOf(e.0, r1);
    assert r1[1..] == "\"" + (e.1 + "\"" + rest);
    assert r1[1..][1..] == e.1 + "\"" + rest;
    StringBodyOf(e.1, rest);
  }

  lemma {:induction false} MembersOf(es: seq<Entry>)
    requires |es| > 0 && IsPlainObject(es)
    ensures ParseMembers(Members(es) + "}") == Some(es)
  {
    if |es| == 1 {
      MemberOf(es[0], "}");
      assert Members(es) == Member(es[0]);
      assert es == [es[0]];
    } else {
      var tail := Members(es[1..]) + "}";
      assert Members(es) + "}" == Member(es[0]) + ("," + tail);
      MemberOf(es[0], "," + tail);
      assert IsPlainObject(es[1..]) by {
        forall i | 0 <= i < |es| - 1 ensures IsPlainText(es[1..][i].0) && IsPlainText(es[1..][i].1) {
          assert es[1..][i] == es[i + 1];
        }
      }
      MembersOf(es[1..]);
      ParseMembersStep(es[0], tail, es[1..]);
      assert [es[0]] + es[1..] == es;
    }
  }

  /** One step of the member list: a member, a comma, and the members after it. */
  lemma ParseMembersStep(e: Entry, tail: string, es: seq<Entry>)
    requires ParseMember(Member(e) + ("," + tail)) == Some((e, "," + tail))
    requires ParseMembers(tail) == Some(es)
    ensures ParseMembers(Member(e) + ("," + tail)) == Some([e] + es)
  {
    var rest := "," + tail;
    assert rest[1..] == tail;
    assert |tail| > 0;
    assert rest != "}";
  }

  /** `JSON.parse(JSON.stringify(record))` gives the record back, member for member. */
  lemma ParseStringify(es: seq<Entry>)
    requires IsPlainObject(es)
    ensures Parse(Stringify(es)) == Some(es)
  {
    var s := Stringify(es);
    if |es| > 0 {
      assert Member(es[0])[0] == '"';
      assert Members(es)[0] == '"';
      assert s != "{}";
      assert s[1..] == Members(es) + "}";
      MembersOf(es);
    }
  }
}
