/** The reversible ids: "ap:" actor ids and media references (followers.go, mediaproxy.go, inbound.go). */
module Codecs {
  import opened Seqs
  import opened Strings

  // ---- Unpadded base64url, section 5 of RFC 4648 ----

  newtype Byte = b: int | 0 <= b < 256
  newtype Sextet = v: int | 0 <= v < 64

  function Digit(v: Sextet): (c: char)
    ensures c != '/' && c != '+' && c != '='
  {
    if v < 26 then (v as int + 'A' as int) as char
    else if v < 52 then (v as int - 26 + 'a' as int) as char
    else if v < 62 then (v as int - 52 + '0' as int) as char
    else if v == 62 then '-' else '_'
  }

  function Value(c: char): Option<Sextet> {
    if 'A' <= c <= 'Z' then Some((c as int - 'A' as int) as Sextet)
    else if 'a' <= c <= 'z' then Some((c as int - 'a' as int + 26) as Sextet)
    else if '0' <= c <= '9' then Some((c as int - '0' as int + 52) as Sextet)
    else if c == '-' then Some(62) else if c == '_' then Some(63) else None
  }

  lemma ValueOfDigit(v: Sextet)
    ensures Value(Digit(v)) == Some(v)
  {
  }

  /** Three bytes make four sextets; one or two left over make two or three. */
  function ToSextets(bs: seq<Byte>): seq<Sextet> {
    if bs == [] then []
    else
      var first, b0 := (bs[0] / 4) as Sextet, bs[0] % 4;
      if |bs| == 1 then [first, (b0 * 16) as Sextet]
      else
        var second, b1 := (b0 * 16 + bs[1] / 16) as Sextet, bs[1] % 16;
        if |bs| == 2 then [first, second, (b1 * 4) as Sextet]
        else [first, second, (b1 * 4 + bs[2] / 64) as Sextet, (bs[2] % 64) as Sextet] + ToSextets(bs[3..])
  }

  function Digits(vs: seq<Sextet>): (s: string)
    ensures forall c :: c in s ==> c != '/' && c != '+' && c != '='
  {
    if vs == [] then "" else [Digit(vs[0])] + Digits(vs[1..])
  }

  function Encode(bs: seq<Byte>): string {
    Digits(ToSextets(bs))
  }

  function Values(s: string): Option<seq<Sextet>> {
    if s == "" then Some([])
    else
      var v, rest := Value(s[0]), Values(s[1..]);
      if v.Some? && rest.Some? then Some([v.value] + rest.value) else None
  }

  /** The bytes of a digit string; a lone trailing digit is malformed, trailing bits are ignored. */
  function FromSextets(vs: seq<Sextet>): Option<seq<Byte>> {
    if vs == [] then Some([])
    else if |vs| == 1 then None
    else
      var first := (vs[0] as int * 4 + vs[1] as int / 16) as Byte;
      if |vs| == 2 then Some([first])
      else
        var second := (vs[1] as int % 16 * 16 + vs[2] as int / 4) as Byte;
        if |vs| == 3 then Some([first, second])
        else
          var third := (vs[2] as int % 4 * 64 + vs[3] as int) as Byte;
          var rest := FromSextets(vs[4..]);
          if rest.Some? then Some([first, second, third] + rest.value) else None
  }

  function Decode(s: string): Option<seq<Byte>> {
    var vs := Values(s);
    if vs.Some? then FromSextets(vs.value) else None
  }

  lemma {:induction false} ValuesOfDigits(vs: seq<Sextet>)
    ensures Values(Digits(vs)) == Some(vs)
  {
    if vs != [] {
      ValuesOfDigits(vs[1..]);
      ValueOfDigit(vs[0]);
      assert Digits(vs)[1..] == Digits(vs[1..]);
      assert vs == [vs[0]] + vs[1..];
    }
  }

  lemma {:induction false} SextetsRoundTrip(bs: seq<Byte>)
    ensures FromSextets(ToSextets(bs)) == Some(bs)
  {
    var vs := ToSextets(bs);
    if |bs| == 1 {
      assert bs == [bs[0]];
    } else if |bs| == 2 {
      assert bs == [bs[0], bs[1]];
    } else if |bs| >= 3 {
      SextetsRoundTrip(bs[3..]);
      assert vs[4..] == ToSextets(bs[3..]);
      assert bs == [bs[0], bs[1], bs[2]] + bs[3..];
    }
  }

  /** Decoding undoes encoding, for every byte string. */
  lemma DecodeEncode(bs: seq<Byte>)
    ensures Decode(Encode(bs)) == Some(bs)
  {
    ValuesOfDigits(ToSextets(bs));
    SextetsRoundTrip(bs);
  }

  /** The corners of the alphabet of section 5 of RFC 4648, and the example strings of its section 10. */
  lemma Rfc4648()
    ensures Digit(0) == 'A' && Digit(25) == 'Z' && Digit(26) == 'a' && Digit(51) == 'z' && Digit(52) == '0'
    ensures Digit(61) == '9' && Digit(62) == '-' && Digit(63) == '_'
    ensures Encode([0x66]) == "Zg" && Encode([0x66, 0x6f]) == "Zm8" && Encode([0x66, 0x6f, 0x6f]) == "Zm9v"
  {
    assert ToSextets([0x66]) == [25, 32] && ToSextets([0x66, 0x6f]) == [25, 38, 60];
    assert [0x66, 0x6f, 0x6f][3..] == [];
    assert ToSextets([0x66, 0x6f, 0x6f]) == [25, 38, 61, 47];
    DigitsAre([25, 32]);
    DigitsAre([25, 38, 60]);
    DigitsAre([25, 38, 61, 47]);
  }

  lemma {:induction false} DigitsAre(vs: seq<Sextet>)
    ensures |Digits(vs)| == |vs| && forall i :: 0 <= i < |vs| ==> Digits(vs)[i] == Digit(vs[i])
  {
    if vs != [] {
      DigitsAre(vs[1..]);
    }
  }

  // ---- Strings as bytes ----

  function ToBytes(s: string): (bs: seq<Byte>)
    requires IsBytes(s)
    ensures |bs| == |s| && forall i :: 0 <= i < |s| ==> bs[i] as int == s[i] as int
  {
    seq(|s|, i requires 0 <= i < |s| => assert s[i] in s; (s[i] as int) as Byte)
  }

  function FromBytes(bs: seq<Byte>): (s: string)
    ensures |s| == |bs| && forall i :: 0 <= i < |bs| ==> s[i] as int == bs[i] as int
  {
    seq(|bs|, i requires 0 <= i < |bs| => (bs[i] as int) as char)
  }

  lemma StringBytesRoundTrip(s: string)
    requires IsBytes(s)
    ensures FromBytes(ToBytes(s)) == s
  {
    assert forall i :: 0 <= i < |s| ==> FromBytes(ToBytes(s))[i] == s[i];
  }

  // ---- Actor ids ----

  const AP_PREFIX := "ap:"

  function EncodeActorID(actorURL: string): string
    requires IsBytes(actorURL)
  {
    AP_PREFIX + Encode(ToBytes(actorURL))
  }

  function DecodeActorID(id: string): Option<string> {
    var enc := CutPrefix(id, AP_PREFIX);
    var bs := if enc.Some? then Decode(enc.value) else None;
    if bs.Some? then Some(FromBytes(bs.value)) else None
  }

  /** An "ap:" id or a "name@instance" handle. */
  predicate IsBridgedUserID(id: string) {
    HasPrefix(id, AP_PREFIX) || Index(id, "@") >= 0
  }

  lemma BridgedIff(id: string)
    ensures IsBridgedUserID(id) <==> (|id| >= 3 && id[..3] == "ap:") || '@' in id
  {
    if '@' in id {
      var k :| 0 <= k < |id| && id[k] == '@';
      assert id[k..k + 1] == "@";
      assert OccursAt(id, "@", k);
    }
    IndexHits(id, '@');
  }

  /** An actor id gives its url back, and no datastore delimiter or padding stands in it. */
  lemma ActorIDRoundTrip(actorURL: string)
    requires IsBytes(actorURL)
    ensures DecodeActorID(EncodeActorID(actorURL)) == Some(actorURL)
    ensures forall c :: c in EncodeActorID(actorURL) ==> c != '/' && c != '+' && c != '='
  {
    var enc := Encode(ToBytes(actorURL));
    assert (AP_PREFIX + enc)[|AP_PREFIX|..] == enc;
    DecodeEncode(ToBytes(actorURL));
    StringBytesRoundTrip(actorURL);
  }

  // ---- Handles ----

  datatype Url = Url(scheme: string, host: string, path: string)

  /** path.Base: the last path segment, "." for an empty path, "/" for slashes only. */
  function PathBase(path: string): string {
    if path == "" then "."
    else
      var p := TrimSlashes(path);
      if p == "" then "/" else p[LastSlash(p) + 1..]
  }

  function TrimSlashes(p: string): string {
    if p != "" && p[|p| - 1] == '/' then TrimSlashes(p[..|p| - 1]) else p
  }

  function LastSlash(p: string): (i: int)
    ensures -1 <= i < |p|
  {
    LastIndex(p, "/")
  }

  /** parse stands for url.Parse and yields the host and path of a url that has one. */
  function HandleFromActorURL(parse: string -> Option<Url>, actorURL: string): string {
    var u := parse(actorURL);
    if u.None? || u.value.host == "" then actorURL
    else
      var base := PathBase(u.value.path);
      var name := if HasPrefix(base, "@") then base[1..] else base;
      if name == "" || name == "." || name == "/" then actorURL else name + "@" + u.value.host
  }

  function BridgedUserID(parse: string -> Option<Url>, actorURL: string): string
    requires IsBytes(actorURL)
  {
    var handle := HandleFromActorURL(parse, actorURL);
    if Index(handle, "@") >= 0 then handle else EncodeActorID(actorURL)
  }

  lemma BaseAfterSlash(dir: string, name: string)
    requires name != "" && '/' !in name
    ensures PathBase(dir + "/" + name) == name
  {
    var p := dir + "/" + name;
    assert p[|p| - 1] == name[|name| - 1];
    assert TrimSlashes(p) == p;
    assert p[|dir|..|dir| + 1] == "/";
    assert OccursAt(p, "/", |dir|);
    var i := LastSlash(p);
    assert p[i..i + 1] == "/" && p[i] == '/';
    assert forall k :: |dir| < k < |p| ==> p[k] == name[k - |dir| - 1];
    assert p[|dir| + 1..] == name;
  }

  /** Two actor urls of one account give one user id. */
  lemma TwoUrlsOneHandle(parse: string -> Option<Url>, x: string, y: string, scheme: string, host: string, name: string)
    requires IsBytes(x) && IsBytes(y) && host != "" && name != "" && name != "." && name[0] != '@' && '/' !in name
    requires parse(x) == Some(Url(scheme, host, "/users/" + name)) && parse(y) == Some(Url(scheme, host, "/@" + name))
    ensures BridgedUserID(parse, x) == BridgedUserID(parse, y) == name + "@" + host
  {
    assert "/users/" + name == "/users" + "/" + name && "/@" + name == "" + "/" + ("@" + name);
    BaseAfterSlash("/users", name);
    BaseAfterSlash("", "@" + name);
    HandleOf(parse, x, scheme, host, "/users/" + name, name);
    HandleOf(parse, y, scheme, host, "/@" + name, name);
  }

  lemma HandleOf(parse: string -> Option<Url>, url: string, scheme: string, host: string, path: string, name: string)
    requires IsBytes(url) && parse(url) == Some(Url(scheme, host, path)) && host != ""
    requires name != "" && name != "." && name[0] != '@' && '/' !in name
    requires PathBase(path) == name || PathBase(path) == "@" + name
    ensures BridgedUserID(parse, url) == name + "@" + host
  {
    assert (name + "@" + host)[|name|..|name| + 1] == "@";
    assert OccursAt(name + "@" + host, "@", |name|);
  }

  /** An actor url that gives no handle is encoded as it is, reversibly. */
  lemma EncodedWithoutHandle(parse: string -> Option<Url>, actorURL: string)
    requires IsBytes(actorURL) && '@' !in actorURL && (parse(actorURL).None? || parse(actorURL).value.host == "")
    ensures DecodeActorID(BridgedUserID(parse, actorURL)) == Some(actorURL)
  {
    IndexHits(actorURL, '@');
    ActorIDRoundTrip(actorURL);
  }

  /** Whatever the url and however it parses, its user id is recognised as a Fediverse account's. */
  lemma BridgedIsRecognised(parse: string -> Option<Url>, actorURL: string)
    requires IsBytes(actorURL)
    ensures IsBridgedUserID(BridgedUserID(parse, actorURL))
  {
    var enc := EncodeActorID(actorURL);
    assert enc[..|AP_PREFIX|] == AP_PREFIX;
  }

  // ---- Media references ----

  const MEDIA_SEP: char := 0x1f as char

  function EncodeMediaRef(userID: string, key: string): string
    requires IsBytes(userID) && IsBytes(key)
  {
    Encode(ToBytes(userID + [MEDIA_SEP] + key))
  }

  /** The user id and key; None when the reference is malformed. */
  function DecodeMediaRef(ref: string): Option<(string, string)> {
    var bs := Decode(ref);
    if bs.Some? then Cut(FromBytes(bs.value), [MEDIA_SEP]) else None
  }

  /** A media reference gives its parts back exactly when the user id does not hold the separator. */
  lemma MediaRefRoundTrip(userID: string, key: string)
    requires IsBytes(userID) && IsBytes(key)
    ensures DecodeMediaRef(EncodeMediaRef(userID, key)) == Some((userID, key)) <==> MEDIA_SEP !in userID
  {
    var joined := userID + [MEDIA_SEP] + key;
    DecodeEncode(ToBytes(joined));
    StringBytesRoundTrip(joined);
    if MEDIA_SEP !in userID {
      CutAtFirst(userID, [MEDIA_SEP], key);
    } else {
      BeforeHasNone(joined, MEDIA_SEP);
    }
  }
}
