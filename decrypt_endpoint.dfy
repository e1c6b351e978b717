/** The `/decrypt` handler: the key and IV length guards, the call to the
    AES-CBC/PKCS#7 decryptor, the choice of the download name and the
    mapping of every exception to a 500 response. Decoding (base64, hex)
    and the decryptor are outside the model: their results are inputs. */
module DecryptEndpoint {
  import opened Basics

  /** What a rejected request reports. */
  datatype ErrorKind =
    | KeyLength   // "La clave debe ser 16/24/32 bytes"
    | IvLength    // "IV debe ser 16 bytes"
    | Exception   // any exception raised inside the handler, as `str(e)`

  datatype Response =
    | JsonError(status: int, kind: ErrorKind)
    | Attachment(body: seq<Byte>, filename: string)

  /** A request after decoding: `iv` is `base64.b64decode(iv_b64)` and `key`
      is `binascii.unhexlify(key_hex)`, `None` when the decoding raised;
      `originalName` is the optional form field, `filename` the upload's own
      name (`None` when the client sent none). */
  datatype Request = Request(
    cipher: seq<Byte>,
    iv: Option<seq<Byte>>,
    key: Option<seq<Byte>>,
    originalName: Option<string>,
    filename: Option<string>)

  /** `aes_cbc_pkcs7_decrypt(cipher, key, iv)`: the plaintext, or `None` when it raised. */
  type Decryptor = (seq<Byte>, seq<Byte>, seq<Byte>) -> Option<seq<Byte>>

  /** AES-128, AES-192 or AES-256. */
  predicate ValidKeyLength(n: nat) {
    n == 16 || n == 24 || n == 32
  }

  const IvBytes: nat := 16
  const EncSuffix: string := ".enc"

  predicate EndsWith(s: string, suffix: string) {
    |suffix| <= |s| && s[|s| - |suffix|..] == suffix
  }

  /** `original_name or file.filename`: the form field unless it is absent or
      empty, else the upload's name (absent when neither is usable). */
  function OutputName(originalName: Option<string>, filename: Option<string>): (name: Option<string>)
    ensures originalName.Some? && originalName.value != "" ==> name == originalName
    ensures (originalName.None? || originalName.value == "") ==> name == filename
  {
    if originalName.Some? && originalName.value != "" then originalName else filename
  }

  /** Removes one trailing `.enc`, if there is one. */
  function StripEnc(name: string): (r: string)
    ensures EndsWith(name, EncSuffix) ==> r + EncSuffix == name
    ensures !EndsWith(name, EncSuffix) ==> r == name
  {
    if EndsWith(name, EncSuffix) then name[..|name| - |EncSuffix|] else name
  }

  /** Stripping undoes appending the suffix, and only once. */
  lemma StripEncAppended(s: string)
    ensures StripEnc(s + EncSuffix) == s
  {
  }

  /** Only one suffix goes: `a.enc.enc` becomes `a.enc`, `.enc` becomes empty. */
  lemma StripEncOnce()
    ensures StripEnc("a.enc.enc") == "a.enc"
    ensures StripEnc(".enc") == ""
  {
  }

  lemma StripEncKeepsOtherNames()
    ensures StripEnc("notes.txt") == "notes.txt"
  {
  }

  /** The whole handler: decode, check the key length, check the IV length,
      decrypt, name the download; any exception becomes a 500. */
  function DecryptFile(req: Request, decrypt: Decryptor): (r: Response)
    // 400 for the two length checks, 500 for everything that raised
    ensures r.JsonError? ==> (r.status == 500 <==> r.kind == Exception)
    ensures r.JsonError? ==> (r.status == 400 <==> r.kind != Exception)
    // the key is checked first, once both decodings succeeded
    ensures req.iv.Some? && req.key.Some? && !ValidKeyLength(|req.key.value|) ==> r == JsonError(400, KeyLength)
    ensures req.iv.Some? && req.key.Some? && ValidKeyLength(|req.key.value|) && |req.iv.value| != IvBytes
            ==> r == JsonError(400, IvLength)
    // a download happens only after both checks and a decryption that returned
    ensures r.Attachment? <==>
              && req.iv.Some? && req.key.Some?
              && ValidKeyLength(|req.key.value|) && |req.iv.value| == IvBytes
              && decrypt(req.cipher, req.key.value, req.iv.value).Some?
              && OutputName(req.originalName, req.filename).Some?
    // a 400 only ever comes from a length check on two decoded values
    ensures r.JsonError? && r.status == 400 ==>
              && req.iv.Some? && req.key.Some?
              && !(ValidKeyLength(|req.key.value|) && |req.iv.value| == IvBytes)
    // a decoding that raised is a 500
    ensures req.iv.None? || req.key.None? ==> r == JsonError(500, Exception)
    // after both checks, a decryptor that raised or no usable name is a 500
    ensures && req.iv.Some? && req.key.Some?
            && ValidKeyLength(|req.key.value|) && |req.iv.value| == IvBytes
            && (decrypt(req.cipher, req.key.value, req.iv.value).None?
                || OutputName(req.originalName, req.filename).None?)
            ==> r == JsonError(500, Exception)
    ensures r.Attachment? ==>
              && r.body == decrypt(req.cipher, req.key.value, req.iv.value).value
              && r.filename == StripEnc(OutputName(req.originalName, req.filename).value)
  {
    if req.iv.None? || req.key.None? then
      JsonError(500, Exception)
    else if !ValidKeyLength(|req.key.value|) then
      JsonError(400, KeyLength)
    else if |req.iv.value| != IvBytes then
      JsonError(400, IvLength)
    else
      match decrypt(req.cipher, req.key.value, req.iv.value)
      case None => JsonError(500, Exception)
      case Some(plain) =>
        // `None.endswith` raises when neither name is usable
        match OutputName(req.originalName, req.filename)
        case None => JsonError(500, Exception)
        case Some(name) => Attachment(plain, StripEnc(name))
  }

  /** When a length check fails (or a decoding raised) the decryptor is never
      consulted: any two decryptors give the same response. */
  lemma RejectedWithoutDecrypting(req: Request, d1: Decryptor, d2: Decryptor)
    requires !(req.iv.Some? && req.key.Some? && ValidKeyLength(|req.key.value|) && |req.iv.value| == IvBytes)
    ensures DecryptFile(req, d1) == DecryptFile(req, d2)
  {
  }

  /** An exception raised by the decryptor is reported as a 500. */
  lemma DecryptFailureIs500(req: Request, decrypt: Decryptor)
    requires req.iv.Some? && req.key.Some?
    requires ValidKeyLength(|req.key.value|) && |req.iv.value| == IvBytes
    requires decrypt(req.cipher, req.key.value, req.iv.value).None?
    ensures DecryptFile(req, decrypt) == JsonError(500, Exception)
  {
  }
}
