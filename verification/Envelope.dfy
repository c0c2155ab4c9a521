/** The self-describing blobs that hold encrypted templates and audit payloads: a magic, a version byte, a
    salt, a nonce and an AEAD ciphertext. Key derivation and the cipher are parameters with their laws. */
module Envelope {
  import opened Wrappers

  newtype byte = b: int | 0 <= b < 256
  type Bytes = seq<byte>

  const SALT_BYTES := 16
  const NONCE_BYTES := 12
  const VERSION: byte := 1

  type Salt = s: Bytes | |s| == SALT_BYTES witness seq(SALT_BYTES, _ => 0 as byte)
  type Nonce = s: Bytes | |s| == NONCE_BYTES witness seq(NONCE_BYTES, _ => 0 as byte)

  /** What one encryption draws at random. */
  datatype Draw = Draw(salt: Salt, nonce: Nonce)

  /** The two kinds of blob differ in their magic and in the strings that bind key and ciphertext to a row. */
  datatype Kind = TemplateBlob | AuditBlob {
    function Magic(): (magic: Bytes)
      ensures |magic| == 4
    {
      match this
      case TemplateBlob => [0x53, 0x45, 0x4E, 0x43]
      case AuditBlob => [0x53, 0x41, 0x55, 0x44]
    }

    function Info(id: string): string {
      (match this case TemplateBlob => "sentinelid-template-v1:" case AuditBlob => "sentinelid-audit-v1:") + id
    }

    function Aad(id: string): string {
      (match this case TemplateBlob => "template:" case AuditBlob => "audit:") + id
    }
  }

  /** HKDF (RFC 5869, section 2) and AES-GCM. */
  datatype Cipher = Cipher(
    derive: (Bytes, string, Salt) -> Bytes,
    seal: (Bytes, Nonce, Bytes, string) -> Bytes,
    open: (Bytes, Nonce, Bytes, string) -> Option<Bytes>)

  /** Opening yields a plaintext exactly when the ciphertext is that plaintext's encryption. */
  ghost predicate Lawful(c: Cipher) {
    forall key, nonce, ciphertext, aad, plain ::
      c.open(key, nonce, ciphertext, aad) == Some(plain) <==> ciphertext == c.seal(key, nonce, plain, aad)
  }

  /** The idealised binding of a ciphertext to its key and its associated data, and of a derived key to
      the master key and the row. Only the results that something is unreadable need it. */
  ghost predicate Binding(c: Cipher) {
    && (forall key, key', nonce, plain, plain', aad, aad' ::
          c.seal(key, nonce, plain, aad) == c.seal(key', nonce, plain', aad') ==>
            key == key' && plain == plain' && aad == aad')
    && (forall master, master', info, info', salt ::
          c.derive(master, info, salt) == c.derive(master', info', salt) ==> master == master' && info == info')
  }

  function Header(kind: Kind): (header: Bytes)
    ensures |header| == 5
  {
    kind.Magic() + [VERSION]
  }

  function Wrap(c: Cipher, kind: Kind, master: Bytes, id: string, draw: Draw, plain: Bytes): Bytes {
    Header(kind) + draw.salt + draw.nonce
    + c.seal(c.derive(master, kind.Info(id), draw.salt), draw.nonce, plain, kind.Aad(id))
  }

  /** None is any refusal: too short, wrong magic, wrong version, or a tag that does not match. */
  function Unwrap(c: Cipher, kind: Kind, master: Bytes, id: string, blob: Bytes): Option<Bytes> {
    if |blob| < 5 + SALT_BYTES + NONCE_BYTES then None
    else if blob[..4] != kind.Magic() then None
    else if blob[4] != VERSION then None
    else
      var salt, nonce := blob[5..21], blob[21..33];
      c.open(c.derive(master, kind.Info(id), salt), nonce, blob[33..], kind.Aad(id))
  }

  /** A blob, byte by byte: a magic of four bytes, the version, the salt, the nonce, and the ciphertext under a
      key derived for the kind and the row and bound to both. */
  lemma BlobLayout(c: Cipher, kind: Kind, master: Bytes, id: string, draw: Draw, plain: Bytes)
    ensures var blob := Wrap(c, kind, master, id, draw, plain);
            && |blob| >= 33 && blob[4] == 1 && blob[5..21] == draw.salt && blob[21..33] == draw.nonce
            && blob[..4] == (if kind == TemplateBlob then [0x53, 0x45, 0x4E, 0x43] else [0x53, 0x41, 0x55, 0x44])
            && blob[33..] ==
                 if kind == TemplateBlob then
                   c.seal(c.derive(master, "sentinelid-template-v1:" + id, draw.salt), draw.nonce, plain,
                          "template:" + id)
                 else
                   c.seal(c.derive(master, "sentinelid-audit-v1:" + id, draw.salt), draw.nonce, plain, "audit:" + id)
  {
    Framing(c, kind, master, id, draw, plain);
    hide Wrap;
  }

  lemma Framing(c: Cipher, kind: Kind, master: Bytes, id: string, draw: Draw, plain: Bytes)
    ensures var blob := Wrap(c, kind, master, id, draw, plain);
            && |blob| >= 33 && blob[..4] == kind.Magic() && blob[4] == VERSION
            && blob[5..21] == draw.salt && blob[21..33] == draw.nonce
            && blob[33..] == c.seal(c.derive(master, kind.Info(id), draw.salt), draw.nonce, plain, kind.Aad(id))
  {
    hide Kind.Magic, Kind.Info, Kind.Aad;
  }

  /** A blob unwraps to a plaintext exactly when it is a wrapping of that plaintext under the same master
      key, for the same row and of the same kind; every other string of bytes is refused. */
  lemma UnwrapIffWrapped(c: Cipher, kind: Kind, master: Bytes, id: string, blob: Bytes, plain: Bytes)
    requires Lawful(c)
    ensures Unwrap(c, kind, master, id, blob) == Some(plain) <==>
              exists draw :: blob == Wrap(c, kind, master, id, draw, plain)
  {
    if Unwrap(c, kind, master, id, blob) == Some(plain) {
      var draw := Draw(blob[5..21], blob[21..33]);
      assert blob == blob[..4] + [blob[4]] + blob[5..21] + blob[21..33] + blob[33..];
      assert blob == Wrap(c, kind, master, id, draw, plain);
    }
    if draw :| blob == Wrap(c, kind, master, id, draw, plain) {
      UnwrapWrap(c, kind, master, id, draw, plain);
    }
  }

  lemma UnwrapWrap(c: Cipher, kind: Kind, master: Bytes, id: string, draw: Draw, plain: Bytes)
    requires Lawful(c)
    ensures Unwrap(c, kind, master, id, Wrap(c, kind, master, id, draw, plain)) == Some(plain)
  {
    Framing(c, kind, master, id, draw, plain);
    hide Wrap, Kind.Magic, Kind.Info, Kind.Aad;
  }

  /** A wrapping opens under its own master key and for its own row only. */
  lemma WrapBindsKeyAndRow(c: Cipher, kind: Kind, master: Bytes, id: string, draw: Draw, plain: Bytes,
                            master': Bytes, id': string)
    requires Lawful(c) && Binding(c)
    ensures Unwrap(c, kind, master', id', Wrap(c, kind, master, id, draw, plain)) ==
            if master' == master && id' == id then Some(plain) else None
  {
    Framing(c, kind, master, id, draw, plain);
    var got := Unwrap(c, kind, master', id', Wrap(c, kind, master, id, draw, plain));
    hide Wrap, Kind.Magic;
    if got.Some? {
      assert kind.Aad(id) == kind.Aad(id');
      assert kind.Aad(id)[|kind.Aad("")|..] == id && kind.Aad(id')[|kind.Aad("")|..] == id';
    } else if master' == master && id' == id {
      UnwrapWrap(c, kind, master, id, draw, plain);
    }
  }

  /** An audit blob is never taken for a template, nor the reverse. */
  lemma KindsAreApart(c: Cipher, kind: Kind, kind': Kind, master: Bytes, id: string, draw: Draw, plain: Bytes,
                        master': Bytes, id': string)
    requires kind != kind'
    ensures Unwrap(c, kind', master', id', Wrap(c, kind, master, id, draw, plain)) == None
  {
    Framing(c, kind, master, id, draw, plain);
    assert kind.Magic()[1] != kind'.Magic()[1];
  }
}
