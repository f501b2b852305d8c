/**
  Data URLs of the form `data:<mime>;base64,<payload>` (section 3 of RFC 2397),
  as the service builds them for returned images, and the page's way of reading
  the payload back: JavaScript's `url.split(',')[1]`.
 */
module DataUrl {
  import opened Common

  const Scheme := "data:"
  const Base64Marker := ";base64,"

  /** The characters of the base64 alphabet (RFC 4648, section 4), padding included. */
  predicate IsBase64Char(ch: char)
  {
    ('A' <= ch <= 'Z') || ('a' <= ch <= 'z') || ('0' <= ch <= '9') || ch == '+' || ch == '/' || ch == '='
  }

  /** Base64 text, as produced by the browser's encoders and the image service. */
  type Base64 = s: string | forall i :: 0 <= i < |s| ==> IsBase64Char(s[i])

  /** `data:${mime};base64,${payload}` */
  function Build(mime: string, payload: string): string
  {
    Scheme + mime + Base64Marker + payload
  }

  /** The index of the first `c` in `s`, or `|s|` when there is none. */
  function IndexOf(s: string, c: char): (k: nat)
    ensures k <= |s|
    ensures NotIn(c, s[..k])
    ensures k < |s| ==> s[k] == c
  {
    if |s| == 0 then 0
    else if s[0] == c then 0
    else 1 + IndexOf(s[1..], c)
  }

  /** JavaScript's `s.split(sep)[k]`: the k-th field, or `undefined` when `s` has fewer than k separators. */
  function Field(s: string, sep: char, k: nat): (r: Option<string>)
    ensures r.Some? ==> NotIn(sep, r.value)
    ensures k == 0 ==> r.Some?
    decreases |s|
  {
    var i := IndexOf(s, sep);
    if k == 0 then Some(s[..i])
    else if i == |s| then None
    else Field(s[i + 1..], sep, k - 1)
  }

  /** The payload extraction of the page: `url.split(',')[1]`. */
  function Payload(url: string): (r: Option<string>)
    ensures r.Some? ==> NotIn(',', r.value)
  {
    Field(url, ',', 1)
  }

  lemma {:induction false} IndexOfAfterPrefix(a: string, b: string, c: char)
    requires NotIn(c, a)
    ensures IndexOf(a + b, c) == |a| + IndexOf(b, c)
    decreases |a|
  {
    if |a| > 0 {
      assert (a + b)[0] == a[0];
      assert (a + b)[1..] == a[1..] + b;
      IndexOfAfterPrefix(a[1..], b, c);
    } else {
      assert a + b == b;
    }
  }

  lemma IndexOfAbsent(s: string, c: char)
    requires NotIn(c, s)
    ensures IndexOf(s, c) == |s|
  {
  }

  /** A payload exists exactly when the URL holds a comma. */
  lemma PayloadExists(url: string)
    ensures Payload(url).Some? <==> !NotIn(',', url)
  {
    var i := IndexOf(url, ',');
    if i < |url| {
      assert url[i] == ',';
    }
  }

  /** Every built data URL has a payload, whatever its MIME type and payload. */
  lemma BuiltHasPayload(mime: string, payload: string)
    ensures Payload(Build(mime, payload)).Some?
  {
    var url := Build(mime, payload);
    assert url[|Scheme| + |mime| + |Base64Marker| - 1] == ',';
    PayloadExists(url);
  }

  /**
    Round trip: when neither the MIME type nor the payload holds a comma,
    `split(',')[1]` of a built data URL gives back the payload.
   */
  lemma {:induction false} PayloadOfBuild(mime: string, payload: string)
    requires NotIn(',', mime) && NotIn(',', payload)
    ensures Payload(Build(mime, payload)) == Some(payload)
  {
    var head := Scheme + mime + ";base64";
    assert NotIn(',', head) by {
      forall i | 0 <= i < |head| ensures head[i] != ',' {
        if i < |Scheme| {
          assert head[i] == Scheme[i];
        } else if i < |Scheme| + |mime| {
          assert head[i] == mime[i - |Scheme|];
        } else {
          assert head[i] == ";base64"[i - |Scheme| - |mime|];
        }
      }
    }
    var url := Build(mime, payload);
    assert url == head + ([','] + payload);
    IndexOfAfterPrefix(head, [','] + payload, ',');
    assert IndexOf(url, ',') == |head|;
    assert url[|head| + 1..] == payload;
    IndexOfAbsent(payload, ',');
    assert payload[..|payload|] == payload;
    assert Field(payload, ',', 0) == Some(payload);
    assert Field(url, ',', 1) == Field(url[|head| + 1..], ',', 0);
  }

  /**
    `split(',')[1]` is the text between the first comma and the next one (or
    the end), whatever precedes and follows.
   */
  lemma {:induction false} PayloadBetweenCommas(a: string, b: string, rest: string)
    requires NotIn(',', a) && NotIn(',', b) && (rest == [] || rest[0] == ',')
    ensures Payload(a + [','] + b + rest) == Some(b)
  {
    var tail := b + rest;
    var after := [','] + tail;
    assert a + [','] + b + rest == a + after;
    IndexOfAfterPrefix(a, after, ',');
    assert (a + after)[|a| + 1..] == tail;
    IndexOfAfterPrefix(b, rest, ',');
    assert tail[..|b|] == b;
    assert Field(tail, ',', 0) == Some(b);
    assert Field(a + after, ',', 1) == Field(tail, ',', 0);
  }

  lemma Base64HasNoComma(s: Base64)
    ensures NotIn(',', s)
  {
  }
}
