/** The persistent configuration cache: write a temporary file, then replace (`sidecar/storage.py`). */
module Storage {
  import opened Wrappers
  import opened Text
  import opened JsonValues
  import opened Hosting
  import opened ConfigSigning
  import opened SidecarRuntime

  /** The two files of the cache directory; None is a missing file. */
  datatype Disk = Disk(cacheFile: Option<string>, tempFile: Option<string>)

  /** Where the power goes off while the cache is being written. */
  datatype Phase = BeforeTemp | DuringTemp(partial: string) | BeforeReplace | AfterReplace

  /** How one cache write goes: to its end, to an exception, or to a power loss. */
  datatype WriteFate =
    | Completes
    | TempFails(leftover: Option<string>)
    | ReplaceFails
    | PowerLoss(at: Phase)

  datatype SaveResult = Saved | SaveRaised | PowerLost

  function SaveResultOf(fate: WriteFate): SaveResult {
    match fate
    case Completes => Saved
    case TempFails(_) | ReplaceFails => SaveRaised
    case PowerLoss(_) => PowerLost
  }

  /** The replacement happened: from here on the new text is what a restart reads. */
  predicate Replaces(fate: WriteFate) {
    fate.Completes? || fate == PowerLoss(AfterReplace)
  }

  function DiskAfterSave(d: Disk, text: string, fate: WriteFate): Disk {
    if Replaces(fate) then Disk(Some(text), None)
    else
      match fate
      case TempFails(leftover) => d.(tempFile := leftover)
      case PowerLoss(BeforeTemp) => d
      case PowerLoss(DuringTemp(partial)) => d.(tempFile := Some(partial))
      case _ => d.(tempFile := Some(text))
  }

  /**
   * The write is atomic: the cache file is the new text as a whole from the replacement on, and the
   * old one as a whole until then, wherever an exception or a power loss strikes.
   */
  lemma WriteIsAtomic(d: Disk, text: string, fate: WriteFate)
    ensures var d' := DiskAfterSave(d, text, fate);
      (fate in {Completes, PowerLoss(AfterReplace)} ==> d' == Disk(Some(text), None)) &&
      (fate !in {Completes, PowerLoss(AfterReplace)} ==> d'.cacheFile == d.cacheFile) &&
      (fate in {ReplaceFails, PowerLoss(BeforeReplace)} ==> d'.tempFile == Some(text))
    ensures SaveResultOf(fate) == Saved <==> fate == Completes
    ensures SaveResultOf(fate) == PowerLost <==> fate.PowerLoss?
  {
  }

  /** What an accepted document puts in force. */
  datatype Applied = Applied(version: int, bundle: Json, expiresAt: real)

  /** A trailing Z becomes an explicit offset before the ISO parser sees it. */
  function ExpiryText(s: string): string {
    if EndsWith(s, "Z") then s[..|s| - 1] + "+00:00" else s
  }

  function VersionOf(doc: ConfigDocument): int {
    if doc.version.Some? then doc.version.value else 0
  }

  function BundleOf(doc: ConfigDocument): Json {
    if doc.bundle.Some? then doc.bundle.value else EMPTY_OBJECT
  }

  /** A key that is set must verify the document; without a key nothing is checked. */
  predicate SignatureAccepted(host: Host, publicKey: Option<string>, doc: ConfigDocument) {
    IsSet(publicKey) ==> VerifyConfig(host, doc, publicKey.value)
  }

  /** What loading a cached document puts in force, if anything. */
  function LoadableAs(host: Host, publicKey: Option<string>, doc: ConfigDocument): Option<Applied> {
    if !SignatureAccepted(host, publicKey, doc) || !IsSet(doc.expiresAt) then None
    else
      match host.parseIso(ExpiryText(doc.expiresAt.value))
      case None => None
      case Some(t) => Some(Applied(VersionOf(doc), BundleOf(doc), t))
  }

  /** What a process that can, or cannot, read the cache file loads from it. */
  function CachedAs(host: Host, publicKey: Option<string>, d: Disk, readable: bool): Option<Applied> {
    if d.cacheFile.None? || !readable then None
    else
      match host.loadDocument(d.cacheFile.value)
      case None => None
      case Some(doc) => LoadableAs(host, publicKey, doc)
  }

  function WithApplied(s: Snapshot, a: Applied, now: real): Snapshot {
    s.(version := a.version, activeConfig := a.bundle, expiresAt := Some(a.expiresAt), lastSync := Some(now))
  }

  class CacheDirectory {
    var cacheFile: Option<string>
    var tempFile: Option<string>

    function Value(): Disk
      reads this
    {
      Disk(cacheFile, tempFile)
    }

    /** The cache file changes only in the one step that replaces it, whatever goes wrong around it. */
    method SaveConfigCache(host: Host, doc: ConfigDocument, fate: WriteFate) returns (r: SaveResult)
      modifies this
      ensures r == SaveResultOf(fate)
      ensures Value() == DiskAfterSave(old(Value()), host.dumpDocument(doc), fate)
    {
      if fate == PowerLoss(BeforeTemp) {
        return PowerLost;
      }
      if fate.PowerLoss? && fate.at.DuringTemp? {
        tempFile := Some(fate.at.partial);
        return PowerLost;
      }
      if fate.TempFails? {
        tempFile := fate.leftover;
        return SaveRaised;
      }
      tempFile := Some(host.dumpDocument(doc));
      if fate == PowerLoss(BeforeReplace) {
        return PowerLost;
      }
      if fate == ReplaceFails {
        return SaveRaised;
      }
      cacheFile, tempFile := tempFile, None;
      r := if fate.Completes? then Saved else PowerLost;
    }

    /** Startup load: no version is compared, so what the file holds is what comes into force. */
    method LoadConfigCache(state: SidecarState, host: Host, readable: bool, now: real) returns (loaded: bool)
      modifies state
      ensures var cached := CachedAs(host, old(state.controlPlanePublicKey), Value(), readable);
        loaded == cached.Some? &&
        state.Value() == if cached.Some? then WithApplied(old(state.Value()), cached.value, now) else old(state.Value())
    {
      if cacheFile.None? {
        return false;
      }
      if !readable {
        return false;
      }
      var decoded := host.loadDocument(cacheFile.value);
      if decoded.None? {
        return false;
      }
      var doc := decoded.value;
      if IsSet(state.controlPlanePublicKey) {
        if !VerifyConfig(host, doc, state.controlPlanePublicKey.value) {
          return false;
        }
      }
      if !IsSet(doc.expiresAt) {
        return false;
      }
      var expiresAt := host.parseIso(ExpiryText(doc.expiresAt.value));
      if expiresAt.None? {
        return false;
      }
      state.UpdateConfig(VersionOf(doc), BundleOf(doc), expiresAt.value, now);
      return true;
    }
  }
}
