/** The encrypted export file (core/src/exchange/crypto.rs): how it is laid out,
    written and read. AES-256-GCM (NIST SP 800-38D) and Argon2id (RFC 9106) are
    abstract functions with a round-trip law and length laws; random bytes are
    parameters. */
module Container {
  import opened Text

  type Bytes = seq<bv8>

  datatype Error =
    | PasswordRequired | PasswordTooShort | TooShort | BadHeader | BadFlags
    | Corrupted | WrongPassword | Service

  datatype Result<+T> = Ok(value: T) | Err(error: Error)

  const SALT_LEN: nat := 16
  const NONCE_LEN: nat := 12
  const KEY_LEN: nat := 32
  const TAG_LEN: nat := 16
  const WRAPPED_DEK_LEN: nat := KEY_LEN + TAG_LEN
  const FLAG_HAS_PASSWORD: bv8 := 1
  const TAU_MAGIC: Bytes := [0x54, 0x41, 0x55, 0x00]
  const MIN_NOPW_BLOB_LEN: nat := 4 + 1 + NONCE_LEN + NONCE_LEN + WRAPPED_DEK_LEN + TAG_LEN
  const MIN_PW_BLOB_LEN: nat := MIN_NOPW_BLOB_LEN + SALT_LEN + NONCE_LEN + WRAPPED_DEK_LEN
  const MIN_EXPORT_PASSWORD_LEN: nat := 8

  datatype Crypto = Crypto(
    appKey: Bytes,
    seal: (Bytes, Bytes, Bytes) -> Option<Bytes>,
    open: (Bytes, Bytes, Bytes) -> Option<Bytes>,
    argon2: (string, Bytes) -> Option<Bytes>)

  /** Opening what was sealed gives it back; a sealed text is its length and a
      tag long; derived keys have the key length. */
  ghost predicate Lawful(x: Crypto) {
    && (forall k, n, p :: x.seal(k, n, p).Some? ==>
          |x.seal(k, n, p).value| == |p| + TAG_LEN && x.open(k, n, x.seal(k, n, p).value) == Some(p))
    && (forall pw, salt :: x.argon2(pw, salt).Some? ==> |x.argon2(pw, salt).value| == KEY_LEN)
  }

  function ValidatePassword(t: Table, password: string): Option<Error> {
    if Blank(t, password) then Some(PasswordRequired)
    else if Text.Bytes(password) < MIN_EXPORT_PASSWORD_LEN then Some(PasswordTooShort)
    else None
  }

  function DeriveKey(x: Crypto, password: string, salt: Bytes): Result<Bytes> {
    if |salt| != SALT_LEN || x.argon2(password, salt).None? then Err(Service)
    else Ok(x.argon2(password, salt).value)
  }

  // ------------------------------------------------------------------ layout

  datatype PasswordPart = PasswordPart(salt: Bytes, nonce: Bytes, wrapped: Bytes)

  datatype File = File(payloadNonce: Bytes, appNonce: Bytes, appWrapped: Bytes, password: Option<PasswordPart>, payload: Bytes)

  predicate WellFormed(f: File) {
    && |f.payloadNonce| == NONCE_LEN && |f.appNonce| == NONCE_LEN && |f.appWrapped| == WRAPPED_DEK_LEN
    && (f.password.Some? ==>
          && |f.password.value.salt| == SALT_LEN && |f.password.value.nonce| == NONCE_LEN
          && |f.password.value.wrapped| == WRAPPED_DEK_LEN)
    && |f.payload| >= TAG_LEN
  }

  function Serialize(f: File): Bytes {
    TAU_MAGIC
    + [if f.password.Some? then FLAG_HAS_PASSWORD else 0]
    + (if f.password.Some? then f.password.value.salt else [])
    + f.payloadNonce + f.appNonce + f.appWrapped
    + (if f.password.Some? then f.password.value.nonce + f.password.value.wrapped else [])
    + f.payload
  }

  /** The file's parts, by offset. */
  function Parse(blob: Bytes): Result<File> {
    if |blob| < MIN_NOPW_BLOB_LEN then Err(TooShort)
    else if blob[..4] != TAU_MAGIC then Err(BadHeader)
    else if blob[4] & 0xFE != 0 then Err(BadFlags)
    else if blob[4] & FLAG_HAS_PASSWORD != 0 then
      if |blob| < MIN_PW_BLOB_LEN then Err(TooShort)
      else Ok(File(blob[21..33], blob[33..45], blob[45..93],
                   Some(PasswordPart(blob[5..21], blob[93..105], blob[105..153])), blob[153..]))
    else Ok(File(blob[5..17], blob[17..29], blob[29..77], None, blob[77..]))
  }

  /** The key inside a file, or why it cannot be had. */
  function Unlock(x: Crypto, t: Table, f: File, password: Option<string>): Result<Bytes> {
    if f.password.Some? && (password.None? || Blank(t, password.value)) then Err(PasswordRequired)
    else
      var app := x.open(x.appKey, f.appNonce, f.appWrapped);
      if app.None? || |app.value| != KEY_LEN then Err(Corrupted)
      else if f.password.None? then Ok(app.value)
      else
        var key := DeriveKey(x, password.value, f.password.value.salt);
        if key.Err? then Err(key.error)
        else
          var dek := x.open(key.value, f.password.value.nonce, f.password.value.wrapped);
          if dek.None? then Err(WrongPassword)
          else if dek.value != app.value then Err(Corrupted)
          else Ok(dek.value)
  }

  function Decrypted(x: Crypto, t: Table, blob: Bytes, password: Option<string>): Result<Bytes> {
    var f := Parse(blob);
    if f.Err? then Err(f.error)
    else
      var dek := Unlock(x, t, f.value, password);
      if dek.Err? then Err(dek.error)
      else
        var plain := x.open(dek.value, f.value.payloadNonce, f.value.payload);
        if plain.None? then Err(Corrupted) else Ok(plain.value)
  }

  datatype Random = Random(dek: Bytes, payloadNonce: Bytes, appNonce: Bytes, salt: Bytes, passwordNonce: Bytes)

  predicate Sized(r: Random) {
    && |r.dek| == KEY_LEN && |r.payloadNonce| == NONCE_LEN && |r.appNonce| == NONCE_LEN
    && |r.salt| == SALT_LEN && |r.passwordNonce| == NONCE_LEN
  }

  /** The file that is written for a plaintext. */
  function Sealed(x: Crypto, t: Table, plaintext: Bytes, password: Option<string>, r: Random): Result<File> {
    if password.Some? && ValidatePassword(t, password.value).Some?
    then Err(ValidatePassword(t, password.value).value)
    else
      var payload := x.seal(r.dek, r.payloadNonce, plaintext);
      var app := x.seal(x.appKey, r.appNonce, r.dek);
      if payload.None? || app.None? then Err(Service)
      else if password.None? then Ok(File(r.payloadNonce, r.appNonce, app.value, None, payload.value))
      else
        var key := DeriveKey(x, password.value, r.salt);
        if key.Err? then Err(key.error)
        else
          var wrapped := x.seal(key.value, r.passwordNonce, r.dek);
          if wrapped.None? then Err(Service)
          else Ok(File(r.payloadNonce, r.appNonce, app.value,
                       Some(PasswordPart(r.salt, r.passwordNonce, wrapped.value)), payload.value))
  }

  function Encrypted(x: Crypto, t: Table, plaintext: Bytes, password: Option<string>, r: Random): Result<Bytes> {
    var f := Sealed(x, t, plaintext, password, r);
    if f.Err? then Err(f.error) else Ok(Serialize(f.value))
  }

  // ----------------------------------------------------------------- methods

  method Encrypt(x: Crypto, t: Table, plaintext: Bytes, password: Option<string>, r: Random) returns (out: Result<Bytes>)
    requires Sized(r)
    ensures out == Encrypted(x, t, plaintext, password, r)
  {
    if password.Some? {
      var invalid := ValidatePassword(t, password.value);
      if invalid.Some? {
        return Err(invalid.value);
      }
    }
    var payloadCt := x.seal(r.dek, r.payloadNonce, plaintext);
    if payloadCt.None? {
      return Err(Service);
    }
    var wrapApp := x.seal(x.appKey, r.appNonce, r.dek);
    if wrapApp.None? {
      return Err(Service);
    }
    var part: Option<PasswordPart> := None;
    if password.Some? {
      var key := DeriveKey(x, password.value, r.salt);
      if key.Err? {
        return Err(key.error);
      }
      var wrapPw := x.seal(key.value, r.passwordNonce, r.dek);
      if wrapPw.None? {
        return Err(Service);
      }
      part := Some(PasswordPart(r.salt, r.passwordNonce, wrapPw.value));
    }
    var blob := WriteFile(File(r.payloadNonce, r.appNonce, wrapApp.value, part, payloadCt.value));
    out := Ok(blob);
  }

  method WriteFile(f: File) returns (blob: Bytes)
    ensures blob == Serialize(f)
  {
    blob := TAU_MAGIC;
    blob := blob + [if f.password.Some? then FLAG_HAS_PASSWORD else 0];
    if f.password.Some? {
      blob := blob + f.password.value.salt;
    }
    blob := blob + f.payloadNonce;
    blob := blob + f.appNonce;
    blob := blob + f.appWrapped;
    if f.password.Some? {
      blob := blob + f.password.value.nonce;
      blob := blob + f.password.value.wrapped;
    }
    blob := blob + f.payload;
  }

  /** Reading by advancing an offset; every slice is in range, for any bytes. */
  method ReadFile(blob: Bytes) returns (out: Result<File>)
    ensures out == Parse(blob)
  {
    if |blob| < MIN_NOPW_BLOB_LEN {
      return Err(TooShort);
    }
    if blob[..4] != TAU_MAGIC {
      return Err(BadHeader);
    }
    var flags := blob[4];
    if flags & 0xFE != 0 {
      return Err(BadFlags);
    }
    var hasPassword := flags & FLAG_HAS_PASSWORD != 0;
    var off := 5;
    var salt := [];
    if hasPassword {
      if |blob| < MIN_PW_BLOB_LEN {
        return Err(TooShort);
      }
      salt := blob[off..off + SALT_LEN];
      off := off + SALT_LEN;
    }
    var payloadNonce := blob[off..off + NONCE_LEN];
    off := off + NONCE_LEN;
    var nonceA := blob[off..off + NONCE_LEN];
    off := off + NONCE_LEN;
    var wrapApp := blob[off..off + WRAPPED_DEK_LEN];
    off := off + WRAPPED_DEK_LEN;
    var part: Option<PasswordPart> := None;
    if hasPassword {
      var nonceP := blob[off..off + NONCE_LEN];
      off := off + NONCE_LEN;
      var wrapPw := blob[off..off + WRAPPED_DEK_LEN];
      off := off + WRAPPED_DEK_LEN;
      part := Some(PasswordPart(salt, nonceP, wrapPw));
    }
    out := Ok(File(payloadNonce, nonceA, wrapApp, part, blob[off..]));
  }

  method Decrypt(x: Crypto, t: Table, blob: Bytes, password: Option<string>) returns (out: Result<Bytes>)
    ensures out == Decrypted(x, t, blob, password)
  {
    var file := ReadFile(blob);
    if file.Err? {
      return Err(file.error);
    }
    var f := file.value;
    if f.password.Some? && (password.None? || Blank(t, password.value)) {
      return Err(PasswordRequired);
    }
    var app := x.open(x.appKey, f.appNonce, f.appWrapped);
    if app.None? || |app.value| != KEY_LEN {
      return Err(Corrupted);
    }
    var dek := app.value;
    if f.password.Some? {
      var key := DeriveKey(x, password.value, f.password.value.salt);
      if key.Err? {
        return Err(key.error);
      }
      var dekPw := x.open(key.value, f.password.value.nonce, f.password.value.wrapped);
      if dekPw.None? {
        return Err(WrongPassword);
      }
      if dekPw.value != dek {
        return Err(Corrupted);
      }
      dek := dekPw.value;
    }
    var plain := x.open(dek, f.payloadNonce, f.payload);
    out := if plain.None? then Err(Corrupted) else Ok(plain.value);
  }

  // -------------------------------------------------------------------- laws

  /** Reading undoes writing. */
  lemma ParseSerialize(f: File)
    requires WellFormed(f)
    ensures Parse(Serialize(f)) == Ok(f)
  {
    var b := Serialize(f);
    assert b[..4] == TAU_MAGIC;
    if f.password.Some? {
      var p := f.password.value;
      assert b[4] == 1;
      assert b[5..21] == p.salt;
      assert b[21..33] == f.payloadNonce && b[33..45] == f.appNonce && b[45..93] == f.appWrapped;
      assert b[93..105] == p.nonce && b[105..153] == p.wrapped && b[153..] == f.payload;
    } else {
      assert b[4] == 0;
      assert b[5..17] == f.payloadNonce && b[17..29] == f.appNonce && b[29..77] == f.appWrapped;
      assert b[77..] == f.payload;
    }
  }

  lemma FlagIsBit(flags: bv8)
    requires flags & 0xFE == 0
    ensures flags == if flags & FLAG_HAS_PASSWORD != 0 then FLAG_HAS_PASSWORD else 0
  {
  }

  /** Writing undoes reading: whatever is accepted is exactly the bytes that
      writing its parts gives. */
  lemma SerializeParse(blob: Bytes)
    requires Parse(blob).Ok?
    ensures WellFormed(Parse(blob).value) && Serialize(Parse(blob).value) == blob
  {
    FlagIsBit(blob[4]);
    var f := Parse(blob).value;
    if f.password.Some? {
      assert blob == blob[..4] + [blob[4]] + blob[5..21] + blob[21..33] + blob[33..45] + blob[45..93]
                     + (blob[93..105] + blob[105..153]) + blob[153..];
    } else {
      assert blob == blob[..4] + [blob[4]] + [] + blob[5..17] + blob[17..29] + blob[29..77] + [] + blob[77..];
    }
  }

  lemma SealedIsWellFormed(x: Crypto, t: Table, plaintext: Bytes, password: Option<string>, r: Random)
    requires Lawful(x) && Sized(r) && Sealed(x, t, plaintext, password, r).Ok?
    ensures var f := Sealed(x, t, plaintext, password, r).value;
            WellFormed(f) && (f.password.Some? <==> password.Some?)
  {
  }

  /** What is encrypted decrypts, with the same password; without one, with any. */
  lemma DecryptEncrypt(x: Crypto, t: Table, plaintext: Bytes, password: Option<string>, r: Random, given: Option<string>)
    requires Lawful(x) && Sized(r) && Encrypted(x, t, plaintext, password, r).Ok?
    requires password.Some? ==> given == password
    ensures Decrypted(x, t, Encrypted(x, t, plaintext, password, r).value, given) == Ok(plaintext)
  {
    SealedIsWellFormed(x, t, plaintext, password, r);
    ParseSerialize(Sealed(x, t, plaintext, password, r).value);
  }

  /** Both wraps of a file hold the data key that its payload is sealed with, so
      they agree, and the one under the application key does not depend on the
      password. */
  lemma BothWrapsHoldTheKey(x: Crypto, t: Table, plaintext: Bytes, password: Option<string>, r: Random)
    requires Lawful(x) && Sized(r) && Sealed(x, t, plaintext, password, r).Ok?
    ensures var f := Sealed(x, t, plaintext, password, r).value;
            && Some(f.appWrapped) == x.seal(x.appKey, r.appNonce, r.dek)
            && x.open(x.appKey, f.appNonce, f.appWrapped) == Some(r.dek)
            && x.open(r.dek, f.payloadNonce, f.payload) == Some(plaintext)
            && (password.Some? ==>
                  var key := DeriveKey(x, password.value, f.password.value.salt);
                  key.Ok? && x.open(key.value, f.password.value.nonce, f.password.value.wrapped) == Some(r.dek))
  {
  }

  /** The reader refuses a file that was written with a password without one. */
  lemma PasswordIsNeeded(x: Crypto, t: Table, plaintext: Bytes, password: string, r: Random, given: Option<string>)
    requires Lawful(x) && Sized(r) && Encrypted(x, t, plaintext, Some(password), r).Ok?
    requires given.None? || Blank(t, given.value)
    ensures Decrypted(x, t, Encrypted(x, t, plaintext, Some(password), r).value, given) == Err(PasswordRequired)
  {
    SealedIsWellFormed(x, t, plaintext, Some(password), r);
    ParseSerialize(Sealed(x, t, plaintext, Some(password), r).value);
  }

  /** The application wrap of a file holds the data key k. */
  predicate AppKeyHolds(x: Crypto, f: File, k: Bytes) {
    x.open(x.appKey, f.appNonce, f.appWrapped) == Some(k) && |k| == KEY_LEN
  }

  /** The password part of a file holds the data key k, under this password. */
  predicate PasswordHolds(x: Crypto, part: PasswordPart, password: string, k: Bytes) {
    && |part.salt| == SALT_LEN && x.argon2(password, part.salt).Some?
    && x.open(x.argon2(password, part.salt).value, part.nonce, part.wrapped) == Some(k)
  }

  /** Exactly what decrypts: a file whose application wrap holds a key that opens
      the payload; if it has a password part, only under a non-blank password that
      opens this part to the same key. */
  lemma DecryptsExactly(x: Crypto, t: Table, f: File, password: Option<string>, p: Bytes)
    requires WellFormed(f)
    ensures Decrypted(x, t, Serialize(f), password) == Ok(p) <==>
              exists k ::
                && AppKeyHolds(x, f, k) && x.open(k, f.payloadNonce, f.payload) == Some(p)
                && (f.password.Some? ==>
                      password.Some? && !Blank(t, password.value) && PasswordHolds(x, f.password.value, password.value, k))
  {
    ParseSerialize(f);
    if Decrypted(x, t, Serialize(f), password) == Ok(p) {
      var k := x.open(x.appKey, f.appNonce, f.appWrapped).value;
      assert AppKeyHolds(x, f, k);
    }
  }

  /** The errors of a file with a password part, each with its cause. */
  lemma PasswordErrors(x: Crypto, t: Table, f: File, password: string)
    requires WellFormed(f) && f.password.Some?
    ensures var r := Decrypted(x, t, Serialize(f), Some(password));
            var part := f.password.value;
            var app := x.open(x.appKey, f.appNonce, f.appWrapped);
            var key := x.argon2(password, part.salt);
            && (Blank(t, password) ==> r == Err(PasswordRequired))
            && (!Blank(t, password) && (app.None? || |app.value| != KEY_LEN) ==> r == Err(Corrupted))
            && (!Blank(t, password) && app.Some? && |app.value| == KEY_LEN ==>
                  && (key.None? ==> r == Err(Service))
                  && (key.Some? ==>
                        var dek := x.open(key.value, part.nonce, part.wrapped);
                        && (dek.None? ==> r == Err(WrongPassword))
                        && (dek.Some? && dek != app ==> r == Err(Corrupted))
                        && (dek == app && x.open(app.value, f.payloadNonce, f.payload).None? ==> r == Err(Corrupted))))
  {
    ParseSerialize(f);
  }

  /** So a written file opens under another password only if the key derived from
      it opens the password wrap to the same data key; an authenticated wrap that
      it does not open is a wrong password. */
  lemma OtherPasswords(x: Crypto, t: Table, plaintext: Bytes, password: string, r: Random, other: string)
    requires Lawful(x) && Sized(r) && Encrypted(x, t, plaintext, Some(password), r).Ok? && !Blank(t, other)
    ensures var f := Sealed(x, t, plaintext, Some(password), r).value;
            var blob := Encrypted(x, t, plaintext, Some(password), r).value;
            var key := x.argon2(other, r.salt);
            && (Decrypted(x, t, blob, Some(other)) == Ok(plaintext) <==>
                  key.Some? && x.open(key.value, r.passwordNonce, f.password.value.wrapped) == Some(r.dek))
            && (key.Some? && x.open(key.value, r.passwordNonce, f.password.value.wrapped).None? ==>
                  Decrypted(x, t, blob, Some(other)) == Err(WrongPassword))
  {
    var f := Sealed(x, t, plaintext, Some(password), r).value;
    SealedIsWellFormed(x, t, plaintext, Some(password), r);
    BothWrapsHoldTheKey(x, t, plaintext, Some(password), r);
    DecryptsExactly(x, t, f, Some(other), plaintext);
    PasswordErrors(x, t, f, other);
  }

  /** Why bytes are no file. */
  lemma NoFile(blob: Bytes)
    ensures Parse(blob) == Err(TooShort) <==>
              || |blob| < 93
              || (|blob| < 169 && blob[0] == 0x54 && blob[1] == 0x41 && blob[2] == 0x55 && blob[3] == 0 && blob[4] == 1)
    ensures Parse(blob) == Err(BadHeader) <==>
              |blob| >= 93 && !(blob[0] == 0x54 && blob[1] == 0x41 && blob[2] == 0x55 && blob[3] == 0)
    ensures Parse(blob) == Err(BadFlags) <==>
              && |blob| >= 93 && blob[0] == 0x54 && blob[1] == 0x41 && blob[2] == 0x55 && blob[3] == 0
              && blob[4] != 0 && blob[4] != 1
    ensures Parse(blob).Ok? || Parse(blob) == Err(TooShort) || Parse(blob) == Err(BadHeader) || Parse(blob) == Err(BadFlags)
  {
    if |blob| >= 93 {
      assert blob[..4] == TAU_MAGIC <==> blob[0] == 0x54 && blob[1] == 0x41 && blob[2] == 0x55 && blob[3] == 0;
      FlagBits(blob[4]);
    }
  }

  lemma FlagBits(flags: bv8)
    ensures flags & 0xFE == 0 <==> flags == 0 || flags == 1
    ensures flags & 0xFE == 0 ==> (flags & FLAG_HAS_PASSWORD != 0 <==> flags == 1)
  {
  }

  /** A password to write with must not be blank and have eight bytes or more; then
      only the ciphers can fail. */
  lemma EncryptRefuses(x: Crypto, t: Table, plaintext: Bytes, password: Option<string>, r: Random)
    ensures var out := Encrypted(x, t, plaintext, password, r);
            && (out == Err(PasswordRequired) <==> password.Some? && Blank(t, password.value))
            && (out == Err(PasswordTooShort) <==>
                  password.Some? && !Blank(t, password.value) && Text.Bytes(password.value) < 8)
            && (out.Err? && out.error != PasswordRequired && out.error != PasswordTooShort ==> out == Err(Service))
  {
  }

  /** Whatever decrypts, under whatever password, is a well-formed file that the
      password unlocks, and so no shorter than the smallest one. */
  lemma AcceptedIsWellFormed(x: Crypto, t: Table, blob: Bytes, password: Option<string>)
    requires Decrypted(x, t, blob, password).Ok?
    ensures |blob| >= MIN_NOPW_BLOB_LEN
    ensures exists f :: WellFormed(f) && blob == Serialize(f) && Unlock(x, t, f, password).Ok?
  {
    SerializeParse(blob);
  }
}
