/** Certificate chains: link by link verification, and whom an accepted peer is trusted through. */
module CertChains {
  import opened Words

  type Bytes = seq<byte>
  type Oid = seq<nat>

  const BASIC_CONSTRAINTS: Oid := [2, 5, 29, 19]
  const ECDSA_WITH_SHA384: Oid := [1, 2, 840, 10045, 4, 3, 3]

  datatype Extension = Extension(id: Oid, value: Option<Bytes>)

  /** A parsed certificate; parts that may fail to encode or to be byte-aligned are optional. */
  datatype Certificate = Certificate(
    publicKey: Option<Bytes>, algorithm: Oid, signature: Option<Bytes>, signed: Option<Bytes>,
    subject: Bytes, extensions: Option<seq<Extension>>)

  datatype CertError =
    | DecodePemCert
    | EmptyChain
    | ParseCertificate
    | UnsupportedAlgorithm
    | SignatureVerification
    | RootMismatch
    | SubjectMismatch
    | IssuerNotCa

  /** The libraries the checks rest on: DER parsing, ECDSA verification, and the cA field of a
      BasicConstraints value. */
  datatype Libraries = Libraries(
    parse: Bytes -> Option<Certificate>,
    ecdsaP384: (Bytes, Bytes, Bytes) -> bool,
    basicConstraints: Bytes -> Option<Option<bool>>)

  // ---------- single certificates ----------

  /** Whether `issuer` signed `subject`, with the error the check would report. */
  function CheckSignature(lib: Libraries, subject: Certificate, issuer: Certificate): Result<(), CertError> {
    if issuer.publicKey.None? || subject.signature.None? || subject.signed.None? then Err(ParseCertificate)
    else if subject.algorithm != ECDSA_WITH_SHA384 then Err(UnsupportedAlgorithm)
    else if !lib.ecdsaP384(issuer.publicKey.value, subject.signed.value, subject.signature.value)
    then Err(SignatureVerification)
    else Ok(())
  }

  /** The first BasicConstraints extension from `i` on decides. */
  function CaFrom(lib: Libraries, extensions: seq<Extension>, i: nat): Result<bool, CertError>
    requires i <= |extensions|
    decreases |extensions| - i
  {
    if i == |extensions| then Ok(false)
    else if extensions[i].id != BASIC_CONSTRAINTS then CaFrom(lib, extensions, i + 1)
    else if extensions[i].value.None? then Err(ParseCertificate)
    else match lib.basicConstraints(extensions[i].value.value)
      case None => Err(ParseCertificate)
      case Some(ca) => Ok(ca == Some(true))
  }

  function IsCa(lib: Libraries, cert: Certificate): Result<bool, CertError> {
    if cert.extensions.None? then Ok(false) else CaFrom(lib, cert.extensions.value, 0)
  }

  /** The extension at `k` is the first one for BasicConstraints, and says cA=TRUE. */
  ghost predicate MarksCa(lib: Libraries, extensions: seq<Extension>, k: nat) {
    && k < |extensions| && extensions[k].id == BASIC_CONSTRAINTS
    && extensions[k].value.Some? && lib.basicConstraints(extensions[k].value.value) == Some(Some(true))
    && forall j | 0 <= j < k :: extensions[j].id != BASIC_CONSTRAINTS
  }

  lemma {:induction false} CaFromMeans(lib: Libraries, extensions: seq<Extension>, i: nat)
    requires i <= |extensions| && forall j | 0 <= j < i :: extensions[j].id != BASIC_CONSTRAINTS
    ensures CaFrom(lib, extensions, i) == Ok(true) <==> exists k :: MarksCa(lib, extensions, k)
    decreases |extensions| - i
  {
    if i < |extensions| {
      if extensions[i].id != BASIC_CONSTRAINTS {
        CaFromMeans(lib, extensions, i + 1);
      } else {
        assert CaFrom(lib, extensions, i) == Ok(true) ==> MarksCa(lib, extensions, i);
        assert forall k | MarksCa(lib, extensions, k) :: k == i;
      }
    }
  }

  /** A certificate is taken for a CA exactly if its first BasicConstraints extension decodes
      and carries cA=TRUE. */
  lemma IsCaMeans(lib: Libraries, cert: Certificate)
    ensures IsCa(lib, cert) == Ok(true) <==>
            cert.extensions.Some? && exists k :: MarksCa(lib, cert.extensions.value, k)
  {
    if cert.extensions.Some? {
      CaFromMeans(lib, cert.extensions.value, 0);
    }
  }

  method IsCaCertificate(lib: Libraries, cert: Certificate) returns (r: Result<bool, CertError>)
    ensures r == IsCa(lib, cert)
  {
    if cert.extensions.None? {
      return Ok(false);
    }
    var extensions := cert.extensions.value;
    var i := 0;
    while i < |extensions|
      invariant 0 <= i <= |extensions|
      invariant CaFrom(lib, extensions, 0) == CaFrom(lib, extensions, i)
    {
      var ext := extensions[i];
      if ext.id == BASIC_CONSTRAINTS {
        if ext.value.None? {
          return Err(ParseCertificate);
        }
        var bc := lib.basicConstraints(ext.value.value);
        if bc.None? {
          return Err(ParseCertificate);
        }
        return Ok(bc.value == Some(true));
      }
      i := i + 1;
    }
    r := Ok(false);
  }

  // ---------- chains, leaf first ----------

  /** The certificates of a PEM text, each of which may fail to decode; there has to be one. */
  method ExtractCertChain(pem: seq<Option<Bytes>>) returns (r: Result<seq<Bytes>, CertError>)
    ensures r.Ok? <==> Decodes(pem)
    ensures r.Ok? ==> r.value == Certificates(pem)
    ensures r.Err? ==> r.error == if pem == [] then EmptyChain else DecodePemCert
  {
    var chain := [];
    for i := 0 to |pem|
      invariant |chain| == i && forall k | 0 <= k < i :: pem[k] == Some(chain[k])
    {
      if pem[i].None? {
        return Err(DecodePemCert);
      }
      chain := chain + [pem[i].value];
    }
    r := if chain == [] then Err(EmptyChain) else Ok(chain);
  }

  /** What checking link `i` of a chain reports. */
  function CheckLink(lib: Libraries, chain: seq<Bytes>, i: nat): Result<(), CertError>
    requires i + 1 < |chain|
  {
    var subject, issuer := lib.parse(chain[i]), lib.parse(chain[i + 1]);
    if subject.None? || issuer.None? then Err(ParseCertificate)
    else CheckSignature(lib, subject.value, issuer.value)
  }

  ghost predicate Linked(lib: Libraries, chain: seq<Bytes>) {
    forall i | 0 <= i < |chain| - 1 :: CheckLink(lib, chain, i).Ok?
  }

  /** Reports the first link that fails, if any. */
  method VerifyCertificateChain(lib: Libraries, chain: seq<Bytes>) returns (r: Result<(), CertError>)
    ensures r.Ok? <==> chain != [] && Linked(lib, chain)
    ensures r.Err? && chain != [] ==>
              exists i | 0 <= i < |chain| - 1 ::
                && CheckLink(lib, chain, i) == r
                && forall k | 0 <= k < i :: CheckLink(lib, chain, k).Ok?
    ensures chain == [] ==> r == Err(EmptyChain)
  {
    hide CheckSignature;
    if chain == [] {
      return Err(EmptyChain);
    }
    if |chain| == 1 {
      return Ok(());
    }
    for i := 0 to |chain| - 1
      invariant forall k | 0 <= k < i :: CheckLink(lib, chain, k).Ok?
    {
      var subject := lib.parse(chain[i]);
      if subject.None? {
        assert CheckLink(lib, chain, i) == Err(ParseCertificate);
        return Err(ParseCertificate);
      }
      var issuer := lib.parse(chain[i + 1]);
      if issuer.None? {
        assert CheckLink(lib, chain, i) == Err(ParseCertificate);
        return Err(ParseCertificate);
      }
      var link := CheckSignature(lib, subject.value, issuer.value);
      if link.Err? {
        assert CheckLink(lib, chain, i) == link;
        return link;
      }
    }
    r := Ok(());
  }

  ghost predicate IssuersAreCas(lib: Libraries, chain: seq<Bytes>) {
    forall i | 1 <= i < |chain| :: lib.parse(chain[i]).Some? && IsCa(lib, lib.parse(chain[i]).value) == Ok(true)
  }

  /** What it takes for a peer's chain to be accepted beside the local one. */
  ghost predicate Acceptable(lib: Libraries, local: seq<Bytes>, peer: seq<Bytes>)
    requires local != [] && peer != []
  {
    && Linked(lib, peer)
    && local[|local| - 1] == peer[|peer| - 1]
    && lib.parse(local[0]).Some? && lib.parse(peer[0]).Some?
    && lib.parse(local[0]).value.subject == lib.parse(peer[0]).value.subject
    && IssuersAreCas(lib, peer)
  }

  /** A PEM text holds a certificate, and all its certificates decode. */
  predicate Decodes(pem: seq<Option<Bytes>>) {
    pem != [] && forall i | 0 <= i < |pem| :: pem[i].Some?
  }

  function Certificates(pem: seq<Option<Bytes>>): seq<Bytes>
    requires Decodes(pem)
  {
    seq(|pem|, i requires 0 <= i < |pem| => pem[i].value)
  }

  /** Accepts a peer exactly if both texts decode and its chain is acceptable. */
  method ValidatePeerCertChain(lib: Libraries, localPem: seq<Option<Bytes>>, peerPem: seq<Option<Bytes>>)
    returns (r: Result<(), CertError>)
    ensures r.Ok? <==> Decodes(localPem) && Decodes(peerPem)
                       && Acceptable(lib, Certificates(localPem), Certificates(peerPem))
  {
    hide Acceptable;
    var local := ExtractCertChain(localPem);
    if local.Err? {
      return Err(local.error);
    }
    var peer := ExtractCertChain(peerPem);
    if peer.Err? {
      return Err(peer.error);
    }
    r := ValidateChains(lib, local.value, peer.value);
  }

  method ValidateChains(lib: Libraries, local: seq<Bytes>, peer: seq<Bytes>) returns (r: Result<(), CertError>)
    requires local != [] && peer != []
    ensures r.Ok? <==> Acceptable(lib, local, peer)
  {
    hide Linked, IsCa;
    r := VerifyCertificateChain(lib, peer);
    if r.Err? {
      return;
    }
    if local[|local| - 1] != peer[|peer| - 1] {
      return Err(RootMismatch);
    }
    var localLeaf := lib.parse(local[0]);
    if localLeaf.None? {
      return Err(ParseCertificate);
    }
    var peerLeaf := lib.parse(peer[0]);
    if peerLeaf.None? {
      return Err(ParseCertificate);
    }
    if localLeaf.value.subject != peerLeaf.value.subject {
      return Err(SubjectMismatch);
    }
    for i := 1 to |peer|
      invariant forall k | 1 <= k < i :: lib.parse(peer[k]).Some? && IsCa(lib, lib.parse(peer[k]).value) == Ok(true)
    {
      var issuer := lib.parse(peer[i]);
      if issuer.None? {
        return Err(ParseCertificate);
      }
      var ca := IsCaCertificate(lib, issuer.value);
      if ca.Err? {
        return Err(ca.error);
      }
      if !ca.value {
        return Err(IssuerNotCa);
      }
    }
    r := Ok(());
  }

  // ---------- trust ----------

  /** `subject` is signed by `issuer`, and `issuer` is a CA. */
  ghost predicate Issued(lib: Libraries, subject: Bytes, issuer: Bytes) {
    && lib.parse(subject).Some? && lib.parse(issuer).Some?
    && CheckSignature(lib, lib.parse(subject).value, lib.parse(issuer).value).Ok?
    && IsCa(lib, lib.parse(issuer).value) == Ok(true)
  }

  /** With every trusted certificate, a set holds all it issued. */
  ghost predicate Closed(lib: Libraries, trusted: iset<Bytes>) {
    forall issuer, subject | issuer in trusted && Issued(lib, subject, issuer) :: subject in trusted
  }

  lemma {:induction false} ChainIsTrusted(lib: Libraries, chain: seq<Bytes>, i: nat, trusted: iset<Bytes>)
    requires i < |chain| && Linked(lib, chain) && IssuersAreCas(lib, chain)
    requires chain[|chain| - 1] in trusted && Closed(lib, trusted)
    ensures chain[i] in trusted
    decreases |chain| - i
  {
    hide CheckSignature, IsCa;
    if i < |chain| - 1 {
      ChainIsTrusted(lib, chain, i + 1, trusted);
      assert CheckLink(lib, chain, i).Ok?;
      assert Issued(lib, chain[i], chain[i + 1]);
    }
  }

  /** The leaf of an accepted chain of any length is in every set that holds the local root and
      is closed under being issued by one of its CAs, hence in the least one. */
  lemma AcceptedLeafIsTrusted(lib: Libraries, local: seq<Bytes>, peer: seq<Bytes>, trusted: iset<Bytes>)
    requires local != [] && peer != [] && Acceptable(lib, local, peer)
    requires local[|local| - 1] in trusted && Closed(lib, trusted)
    ensures peer[0] in trusted
    ensures lib.parse(peer[0]).Some? && lib.parse(local[0]).Some?
    ensures lib.parse(peer[0]).value.subject == lib.parse(local[0]).value.subject
  {
    hide Linked, IssuersAreCas, Closed;
    ChainIsTrusted(lib, peer, 0, trusted);
  }

  /** With the key of a CA, a set of keys holds the key of all it issued. */
  ghost predicate KeysClosed(lib: Libraries, keys: iset<Bytes>) {
    forall issuer, subject | Issued(lib, subject, issuer) && KeyIn(lib, issuer, keys) :: KeyIn(lib, subject, keys)
  }

  ghost predicate KeyIn(lib: Libraries, der: Bytes, keys: iset<Bytes>) {
    lib.parse(der).Some? && (lib.parse(der).value.publicKey.Some? ==> lib.parse(der).value.publicKey.value in keys)
  }

  /** The same for keys: the leaf's key follows from the local root's key. */
  lemma AcceptedLeafKeyIsTrusted(lib: Libraries, local: seq<Bytes>, peer: seq<Bytes>, keys: iset<Bytes>)
    requires local != [] && peer != [] && Acceptable(lib, local, peer)
    requires KeyIn(lib, local[|local| - 1], keys) && KeysClosed(lib, keys)
    ensures KeyIn(lib, peer[0], keys)
  {
    hide Linked, IssuersAreCas, Issued;
    var trusted := iset der: Bytes | KeyIn(lib, der, keys);
    AcceptedLeafIsTrusted(lib, local, peer, trusted);
  }
}
