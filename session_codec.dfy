/**
 * The session-payload codec of src/solve.ts (lines 98-125): the page keeps its
 * answer codes in sessionStorage under "wo_session" as base64 of a JSON text whose
 * UTF-16 code units were XORed with the repeating key "WO_2024_CHALLENGE". The
 * solver decodes it, appends the sentinel code "FINISH" and writes it back.
 */
module SessionCodec {
  import opened Wrappers

  /** A UTF-16 code unit. JavaScript's `^` on two code units stays below 2^16,
      so `String.fromCharCode`'s truncation to 16 bits never changes it. */
  type CodeUnit = bv16

  /** The store key of the payload. */
  const SessionKey: string := "wo_session"

  /** The sentinel code appended for step 30. */
  const Sentinel: string := "FINISH"

  /** The text of the XOR key. */
  const XorKeyText: string := "WO_2024_CHALLENGE"

  /** The code units of XorKeyText, as `charCodeAt` returns them. */
  const XorKey: seq<CodeUnit> :=
    [0x57, 0x4F, 0x5F, 0x32, 0x30, 0x32, 0x34, 0x5F, 0x43, 0x48, 0x41, 0x4C, 0x4C, 0x45, 0x4E, 0x47, 0x45]

  /** The decoded session record: its `codes` array, and every other member as its
      name and JSON text, in order. Only `codes` is changed; the rest is written back. */
  datatype Payload = Payload(codes: seq<string>, otherFields: seq<(string, string)>)

  /** Why reading or rewriting the session fails. */
  datatype SessionError =
    | NoSessionData   // getItem gave null or "": the "No session data found" error
    | InvalidBase64   // atob throws
    | MalformedJson   // JSON.parse throws, or the result has no `codes` array to push to
    | NotLatin1       // btoa throws on a code unit above 0xFF

  /** The browser built-ins the codec calls. They are not implemented here;
      the two that can throw return None for that case. */
  datatype Builtins = Builtins(
    atob: string -> Option<seq<CodeUnit>>,
    btoa: seq<CodeUnit> -> string,
    parse: seq<CodeUnit> -> Option<Payload>,
    stringify: Payload -> seq<CodeUnit>)

  /** What a successful rewrite writes back to the store and returns to the solver. */
  datatype Rewritten = Rewritten(stored: string, codes: seq<string>)

  lemma XorKeySpellsKeyText()
    ensures |XorKey| == |XorKeyText| == 17
    ensures forall i :: 0 <= i < |XorKey| ==> XorKey[i] as int == XorKeyText[i] as int < 0x80
  {
  }

  /** The repeating-key XOR, built from the left as the source's `+=` loop builds it. */
  function Xor(data: seq<CodeUnit>, key: seq<CodeUnit>): (r: seq<CodeUnit>)
    requires |key| > 0
    ensures |r| == |data|
    decreases |data|
  {
    if |data| == 0 then []
    else Xor(data[..|data| - 1], key) + [data[|data| - 1] ^ key[(|data| - 1) % |key|]]
  }

  /** Output unit i depends only on input unit i and key unit i mod |key|. */
  lemma {:induction false} XorAt(data: seq<CodeUnit>, key: seq<CodeUnit>, i: nat)
    requires |key| > 0 && i < |data|
    ensures Xor(data, key)[i] == data[i] ^ key[i % |key|]
    decreases |data|
  {
    if i < |data| - 1 {
      XorAt(data[..|data| - 1], key, i);
    }
  }

  /** Encrypting the decrypted text with the same key gives back the original (and vice versa). */
  lemma {:induction false} XorInvolution(data: seq<CodeUnit>, key: seq<CodeUnit>)
    requires |key| > 0
    ensures Xor(Xor(data, key), key) == data
  {
    var once := Xor(data, key);
    forall i | 0 <= i < |data|
      ensures Xor(once, key)[i] == data[i]
    {
      XorAt(data, key, i);
      XorAt(once, key, i);
    }
  }

  /** The transform of a prefix is the prefix of the transform. */
  lemma {:induction false} XorPrefix(data: seq<CodeUnit>, key: seq<CodeUnit>, n: nat)
    requires |key| > 0 && n <= |data|
    ensures Xor(data[..n], key) == Xor(data, key)[..n]
  {
    forall i | 0 <= i < n
      ensures Xor(data[..n], key)[i] == Xor(data, key)[i]
    {
      XorAt(data[..n], key, i);
      XorAt(data, key, i);
    }
  }

  /** The units `btoa` accepts. */
  predicate IsLatin1(units: seq<CodeUnit>) {
    forall i :: 0 <= i < |units| ==> units[i] <= 0xFF
  }

  /** The key is ASCII, so the XORed text is Latin-1 exactly when the plain text is. */
  lemma {:induction false} XorKeepsLatin1(data: seq<CodeUnit>)
    ensures IsLatin1(Xor(data, XorKey)) <==> IsLatin1(data)
  {
    XorKeySpellsKeyText();
    var out := Xor(data, XorKey);
    forall i | 0 <= i < |data|
      ensures out[i] <= 0xFF <==> data[i] <= 0xFF
    {
      XorAt(data, XorKey, i);
      var k := XorKey[i % |XorKey|];
      assert k <= 0x7F;
    }
  }

  /** The decrypt loop of src/solve.ts:104-109. */
  method Decrypt(decoded: seq<CodeUnit>) returns (decrypted: seq<CodeUnit>)
    ensures decrypted == Xor(decoded, XorKey)
  {
    decrypted := [];
    var i := 0;
    while i < |decoded|
      invariant 0 <= i <= |decoded|
      invariant decrypted == Xor(decoded, XorKey)[..i]
    {
      assert decoded[..i + 1][..i] == decoded[..i];
      XorPrefix(decoded, XorKey, i);
      XorPrefix(decoded, XorKey, i + 1);
      decrypted := decrypted + [decoded[i] ^ XorKey[i % |XorKey|]];
      i := i + 1;
    }
  }

  /** The encrypt loop of src/solve.ts:117-122. */
  method Encrypt(json: seq<CodeUnit>) returns (encrypted: seq<CodeUnit>)
    ensures encrypted == Xor(json, XorKey)
    ensures Xor(encrypted, XorKey) == json
  {
    encrypted := [];
    var i := 0;
    while i < |json|
      invariant 0 <= i <= |json|
      invariant encrypted == Xor(json, XorKey)[..i]
    {
      assert json[..i + 1][..i] == json[..i];
      XorPrefix(json, XorKey, i);
      XorPrefix(json, XorKey, i + 1);
      encrypted := encrypted + [json[i] ^ XorKey[i % |XorKey|]];
      i := i + 1;
    }
    XorInvolution(json, XorKey);
  }

  /** Reading the payload: the `!raw` guard, atob, the XOR, JSON.parse. */
  function Decode(b: Builtins, raw: Option<string>): (r: Result<Payload, SessionError>)
    ensures r == Failure(NoSessionData) <==> raw.None? || raw.value == ""
    ensures r == Failure(InvalidBase64) <==> raw.Some? && raw.value != "" && b.atob(raw.value).None?
    ensures r == Failure(MalformedJson) <==>
      raw.Some? && raw.value != "" && b.atob(raw.value).Some? && b.parse(Xor(b.atob(raw.value).value, XorKey)).None?
    ensures r.Success? <==>
      raw.Some? && raw.value != "" && b.atob(raw.value).Some? && b.parse(Xor(b.atob(raw.value).value, XorKey)).Some?
    ensures r.Success? ==> b.parse(Xor(b.atob(raw.value).value, XorKey)) == Some(r.value)
    ensures r.Failure? ==> r.error != NotLatin1
  {
    if raw.None? || raw.value == "" then Failure(NoSessionData)
    else match b.atob(raw.value)
      case None => Failure(InvalidBase64)
      case Some(units) =>
        match b.parse(Xor(units, XorKey))
        case None => Failure(MalformedJson)
        case Some(p) => Success(p)
  }

  /** Writing the payload: JSON.stringify, the XOR, btoa. */
  function Encode(b: Builtins, p: Payload): (r: Result<string, SessionError>)
    ensures r.Failure? <==> !IsLatin1(b.stringify(p))
    ensures r.Failure? ==> r.error == NotLatin1
    ensures r.Success? ==> r.value == b.btoa(Xor(b.stringify(p), XorKey))
  {
    XorKeepsLatin1(b.stringify(p));
    var cipher := Xor(b.stringify(p), XorKey);
    if IsLatin1(cipher) then Success(b.btoa(cipher)) else Failure(NotLatin1)
  }

  /** `data.codes.push("FINISH")`. */
  function WithSentinel(p: Payload): (q: Payload)
    ensures |q.codes| == |p.codes| + 1
    ensures q.codes[..|p.codes|] == p.codes && q.codes[|p.codes|] == Sentinel
    ensures q.otherFields == p.otherFields
  {
    p.(codes := p.codes + [Sentinel])
  }

  /** The whole `page.evaluate` callback of src/solve.ts:98-125. */
  function Rewrite(b: Builtins, raw: Option<string>): (r: Result<Rewritten, SessionError>)
    ensures Decode(b, raw).Failure? ==> r == Failure(Decode(b, raw).error)
    ensures Decode(b, raw).Success? ==>
      var q := WithSentinel(Decode(b, raw).value);
      && (r.Success? <==> IsLatin1(b.stringify(q)))
      && (r.Failure? ==> r.error == NotLatin1)
      && (r.Success? ==> r.value.codes == q.codes && r.value.stored == b.btoa(Xor(b.stringify(q), XorKey)))
  {
    match Decode(b, raw)
    case Failure(e) => Failure(e)
    case Success(p) =>
      var q := WithSentinel(p);
      match Encode(b, q)
      case Failure(e) => Failure(e)
      case Success(blob) => Success(Rewritten(blob, q.codes))
  }

  /** A successful rewrite returns the stored codes with exactly one more entry, the sentinel. */
  lemma RewriteAppendsSentinel(b: Builtins, raw: Option<string>)
    requires Rewrite(b, raw).Success?
    ensures Decode(b, raw).Success?
    ensures var old_codes := Decode(b, raw).value.codes; var r := Rewrite(b, raw).value;
      |r.codes| == |old_codes| + 1 && r.codes[..|old_codes|] == old_codes && r.codes[|old_codes|] == Sentinel
  {
  }

  /** When base64 and JSON round-trip on the values involved, the browser built-ins
      hand the rewritten blob back unchanged. */
  predicate BuiltinsInverseOn(b: Builtins, p: Payload) {
    var cipher := Xor(b.stringify(p), XorKey);
    b.parse(b.stringify(p)) == Some(p) && b.atob(b.btoa(cipher)) == Some(cipher) && b.btoa(cipher) != ""
  }

  /** Decoding what was encoded gives the payload back. */
  lemma EncodeThenDecode(b: Builtins, p: Payload)
    requires IsLatin1(b.stringify(p)) && BuiltinsInverseOn(b, p)
    ensures Encode(b, p).Success?
    ensures Decode(b, Some(Encode(b, p).value)) == Success(p)
  {
    var json := b.stringify(p);
    XorKeepsLatin1(json);
    XorInvolution(json, XorKey);
  }

  /** Reading the rewritten store again yields the record with the appended codes
      and its other members unchanged. */
  lemma RewriteIsReadable(b: Builtins, raw: Option<string>)
    requires Rewrite(b, raw).Success?
    requires BuiltinsInverseOn(b, WithSentinel(Decode(b, raw).value))
    ensures var p := Decode(b, raw).value; var r := Rewrite(b, raw).value;
      Decode(b, Some(r.stored)) == Success(Payload(r.codes, p.otherFields))
  {
    var q := WithSentinel(Decode(b, raw).value);
    EncodeThenDecode(b, q);
  }

  /** The store read, the decrypt loop, the push, the encrypt loop and the store write.
      The store is a value here: `getItem` looks it up and `setItem` updates it. */
  method RewriteSession(b: Builtins, store: map<string, string>)
    returns (r: Result<Rewritten, SessionError>, store': map<string, string>)
    ensures var raw := if SessionKey in store then Some(store[SessionKey]) else None;
      r == Rewrite(b, raw)
    ensures r.Success? ==> store' == store[SessionKey := r.value.stored]
    ensures r.Failure? ==> store' == store
  {
    store' := store;
    var raw := if SessionKey in store then Some(store[SessionKey]) else None;
    if raw.None? || raw.value == "" {
      return Failure(NoSessionData), store';
    }
    var decoded := b.atob(raw.value);
    if decoded.None? {
      return Failure(InvalidBase64), store';
    }
    var decrypted := Decrypt(decoded.value);
    var data := b.parse(decrypted);
    if data.None? {
      return Failure(MalformedJson), store';
    }
    var codes := data.value.codes;
    codes := codes + [Sentinel];
    var json := b.stringify(data.value.(codes := codes));
    var encrypted := Encrypt(json);
    if !IsLatin1(encrypted) {
      return Failure(NotLatin1), store';
    }
    var blob := b.btoa(encrypted);
    store' := store[SessionKey := blob];
    r := Success(Rewritten(blob, codes));
  }
}
