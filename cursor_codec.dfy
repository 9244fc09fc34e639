/** The composite cursor of src/reddit.ts: a map from subreddit to that
    subreddit's own `after` token, carried by the caller as
    `btoa(JSON.stringify(map))` (line 191) and read back with
    `JSON.parse(atob(after))` (lines 162-171). */
module CursorCodec {
  import opened Common
  import opened Base64
  import opened CursorJson
  import RedditAdapter

  /** A token the encoder writes verbatim and `btoa` accepts. */
  predicate IsSafeToken(s: string) {
    IsPlainText(s) && IsBinaryString(s)
  }

  predicate IsSafeRecord(es: seq<Entry>) {
    forall i :: 0 <= i < |es| ==> IsSafeToken(es[i].0) && IsSafeToken(es[i].1)
  }

  predicate DistinctKeys(es: seq<Entry>) {
    forall i, j :: 0 <= i < j < |es| ==> es[i].0 != es[j].0
  }

  /** The object `JSON.parse` builds and `Object.assign` copies into `cursors`:
      members in order, a later duplicate key overwriting an earlier one. */
  function ToMap(es: seq<Entry>): (m: map<string, string>)
    ensures forall k :: k in m <==> exists i :: 0 <= i < |es| && es[i].0 == k
  {
    if es == [] then map[]
    else
      var last := es[|es| - 1];
      var init := es[..|es| - 1];
      var m := ToMap(init);
      assert forall i :: 0 <= i < |init| ==> init[i] == es[i];
      m[last.0 := last.1]
  }

  /** With distinct keys every member is found under its own key. */
  lemma {:induction false} ToMapDistinct(es: seq<Entry>)
    requires DistinctKeys(es)
    ensures forall i :: 0 <= i < |es| ==> ToMap(es)[es[i].0] == es[i].1
  {
    if es != [] {
      var init := es[..|es| - 1];
      assert forall i :: 0 <= i < |init| ==> init[i] == es[i];
      ToMapDistinct(init);
    }
  }

  lemma {:induction false} BinaryConcat(a: string, b: string)
    requires IsBinaryString(a) && IsBinaryString(b)
    ensures IsBinaryString(a + b)
  {
    assert forall i :: 0 <= i < |a| ==> (a + b)[i] == a[i];
    assert forall i :: |a| <= i < |a + b| ==> (a + b)[i] == b[i - |a|];
  }

  lemma {:induction false} MembersBinary(es: seq<Entry>)
    requires IsSafeRecord(es)
    ensures IsBinaryString(Members(es))
  {
    if |es| > 0 {
      var e := es[0];
      BinaryConcat("\"", e.0);
      BinaryConcat("\"" + e.0, "\"");
      BinaryConcat("\"", e.1);
      BinaryConcat("\"" + e.1, "\"");
      BinaryConcat(Quote(e.0), ":");
      BinaryConcat(Quote(e.0) + ":", Quote(e.1));
      if |es| > 1 {
        assert IsSafeRecord(es[1..]) by {
          forall i | 0 <= i < |es| - 1 ensures IsSafeToken(es[1..][i].0) && IsSafeToken(es[1..][i].1) {
            assert es[1..][i] == es[i + 1];
          }
        }
        MembersBinary(es[1..]);
        BinaryConcat(Member(e), ",");
        BinaryConcat(Member(e) + ",", Members(es[1..]));
      }
    }
  }

  lemma StringifyBinary(es: seq<Entry>)
    requires IsSafeRecord(es)
    ensures IsPlainObject(es) && IsBinaryString(Stringify(es))
  {
    MembersBinary(es);
    BinaryConcat("{", Members(es));
    BinaryConcat("{" + Members(es), "}");
  }

  /** Line 191: `btoa(JSON.stringify(nextCursors))`. */
  function EncodeCursor(es: seq<Entry>): (token: string)
    requires IsSafeRecord(es)
    ensures token != ""
  {
    StringifyBinary(es);
    var text := Stringify(es);
    assert |ToBytes(text)| >= 2;
    Btoa(text)
  }

  /** Lines 162-171: no truthy cursor means no map; a cursor that `atob` or
      `JSON.parse` rejects is a bare token for the first subreddit. */
  function DecodeCursor(after: Option<string>): (cursors: map<string, string>)
    ensures !Truthy(after) ==> cursors == map[]
  {
    if !Truthy(after) then map[]
    else
      var fallback := map[RedditAdapter.SUBREDDITS[0] := after.value];
      match Atob(after.value)
      case None => fallback
      case Some(text) =>
        match Parse(text)
        case None => fallback
        case Some(es) => ToMap(es)
  }

  /** The cursor the aggregator emits decodes to the map it encoded. */
  lemma CursorRoundTrip(es: seq<Entry>)
    requires IsSafeRecord(es)
    ensures DecodeCursor(Some(EncodeCursor(es))) == ToMap(es)
  {
    StringifyBinary(es);
    AtobBtoa(Stringify(es));
    ParseStringify(es);
  }

  /** A token with a character that is neither whitespace, `=`, nor a base64
      digit (a Reddit fullname such as `t3_1abc` has `_`) cannot be a composite
      cursor, so it resumes the first subreddit. */
  lemma BareTokenFallback(token: string, i: nat)
    requires i < |token| && !IsAsciiWhitespace(token[i]) && !IsDigit(token[i]) && token[i] != '='
    ensures DecodeCursor(Some(token)) == map["gamedev" := token]
  {
    AtobRejectsForeign(token, i);
  }

  /** The characters a JSON text can begin with: whitespace or the start of a value. */
  predicate JsonStart(c: char) {
    c in " \t\n\r{[\"-0123456789tfn"
  }

  /** A text that decodes from base64 but cannot begin any JSON value makes
      `JSON.parse` throw, so the token is a bare token too. */
  lemma NonJsonFallback(token: string, text: string)
    requires Truthy(Some(token)) && Atob(token) == Some(text)
    requires text == [] || !JsonStart(text[0])
    ensures DecodeCursor(Some(token)) == map["gamedev" := token]
  {
  }

  /** The soft hyphen U+00AD is neither whitespace nor the start of a JSON value. */
  lemma NotJsonStart(c: char)
    requires c as int == 0xAD
    ensures !JsonStart(c)
  {
  }

  /** Clean base64 text of a length that needs no padding decodes digit by digit,
      its first byte made of the first two digits. */
  lemma AtobClean(t: string)
    requires AllDigits(t) && |t| % 4 == 3
    ensures Atob(t).Some? && |Atob(t).value| > 0
    ensures Atob(t).value[0] as int == Byte1(ValueOf(t[0]), ValueOf(t[1]))
  {
    forall i | 0 <= i < |t| ensures !IsAsciiWhitespace(t[i]) {
      assert IsDigit(t[i]);
    }
    StripWhitespaceNone(t);
    assert StripPadding(t) == t;
    var bytes := DecodeDigits(t);
    assert bytes[0] == Byte1(ValueOf(t[0]), ValueOf(t[1]));
  }

  /** The legacy plain cursor `rawToken123` is base64 text whose first decoded byte is 0xAD. */
  lemma LegacyTokenBytes()
    ensures Atob("rawToken123").Some? && |Atob("rawToken123").value| > 0
    ensures Atob("rawToken123").value[0] as int == 173
  {
    var token := "rawToken123";
    assert token[0] == 'r' && token[1] == 'a';
    assert AllDigits(token) by {
      forall i | 0 <= i < |token| ensures IsDigit(token[i]) {
      }
    }
    AtobClean(token);
    assert ValueOf('r') == 43 && ValueOf('a') == 26;
  }

  /** Such a cursor is not JSON once decoded, so it still resumes the first subreddit. */
  lemma LegacyTokenFallback()
    ensures DecodeCursor(Some("rawToken123")) == map["gamedev" := "rawToken123"]
  {
    LegacyTokenBytes();
    var text := Atob("rawToken123").value;
    NotJsonStart(text[0]);
    NonJsonFallback("rawToken123", text);
  }
}
