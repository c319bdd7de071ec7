/**
 * Everything the data plane computes outside itself. Hashing, signature checking, JSON text,
 * ISO time parsing and Python's conversions are functions the model is given, so that every
 * result holds for all of them; what is assumed of them is stated by the predicates below.
 */
module Hosting {
  import opened Wrappers
  import opened JsonValues

  /** A decoded configuration reply; an absent or null text field is `None`. */
  datatype ConfigDocument = ConfigDocument(
    version: Option<int>,
    organization: Option<string>,
    environment: Option<string>,
    issuedAt: Option<string>,
    expiresAt: Option<string>,
    bundleSha256: Option<string>,
    signature: Option<string>,
    bundle: Option<Json>)

  datatype Host = Host(
    sha256: string -> string,
    canonicalJson: Json -> string,
    // public key, message, signature; false also when a text is not valid base64
    verifyEd25519: (string, string, string) -> bool,
    // `datetime.fromisoformat` as an instant, a naive time read as UTC; None when it raises
    parseIso: string -> Option<real>,
    // `json.dumps` of a document, and `json.loads` of a text (None when it raises)
    dumpDocument: ConfigDocument -> string,
    loadDocument: string -> Option<ConfigDocument>,
    // `str` of a value that is not a string, `str.upper`, and `float` of a string (None when it raises)
    repr: Json -> string,
    upper: string -> string,
    parseFloat: string -> Option<real>)

  /** A document read from some text survives being written and read back; the empty string is no time. */
  ghost predicate StorageFaithful(host: Host) {
    (forall text :: host.loadDocument(text).Some? ==> SurvivesStorage(host, host.loadDocument(text).value)) &&
    host.parseIso("") == None
  }

  predicate SurvivesStorage(host: Host, doc: ConfigDocument) {
    host.loadDocument(host.dumpDocument(doc)) == Some(doc)
  }
}
