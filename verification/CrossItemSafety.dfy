/** The cross-item safety scan: strict extraction, tokenising and matching, with
    an answer per idempotency key. */
module CrossItemSafety {
  import opened Prelude
  import opened Extraction
  import ES = ExtractionState
  import Tokens
  import opened Matcher

  datatype ScanCode =
    | MaterialNotFound | MaterialMismatch | OutputHashMismatch | PathViolation | SymlinkRefused
    | EncryptedContainer | TruncatedContainer | UnsupportedContainer | Unscannable | LimitExceeded
    | UnknownNormalization | IdempotencyConflict

  /** `genuine`: the identity check accepts the request. */
  datatype ScanRequest = ScanRequest(
    genuine: bool, key: string, sha: string, logicalPath: string, fingerprints: seq<Fingerprint>,
    knownNormalization: bool,
    limits: Limits, maxMatchCount: nat)

  /** What resolving and validating the output gives, before and after reading. */
  datatype Material = Available(attachment: Attachment, changed: Option<ScanCode>) | Refused(code: ScanCode)

  datatype Foreign = Foreign(
    extraction: Lib, isWord: char -> bool, normalizeText: string -> string, hash: string -> string)

  datatype ScanResult = Passed(matchedIds: seq<string>, memberCount: nat) | ScanBlocked(code: ScanCode)

  function MapFailure(f: Failure): ScanCode
  {
    if f.Blocked? && f.reason == ContainerEncrypted then EncryptedContainer
    else if f.Blocked? && f.reason == ContainerTruncated then TruncatedContainer
    else match f.code
      case MediaUnsupported => UnsupportedContainer
      case ContainerUnsupported => UnsupportedContainer
      case OutputPathViolation => PathViolation
      case SymlinkUnsupported => SymlinkRefused
      case ScanLimitExceeded => LimitExceeded
      case ContentUnscannable => Unscannable
  }

  function Tokenize(fs: Foreign, texts: seq<string>): (r: seq<seq<string>>)
    ensures |r| == |texts|
    ensures forall i :: 0 <= i < |texts| ==> r[i] == Tokens.Scan(fs.isWord, fs.normalizeText(texts[i]))
  {
    seq(|texts|, i requires 0 <= i < |texts| => Tokens.Scan(fs.isWord, fs.normalizeText(texts[i])))
  }

  /** Tokenised texts, and paths with the attachment's own path first. */
  function ProjectionsOf(fs: Foreign, r: ScanRequest, acc: Acc): Projections
  {
    Projections(Tokenize(fs, acc.chunks), Tokenize(fs, [r.logicalPath] + acc.paths))
  }

  /** The right answer to a request: a complete, exact match list over everything
      a strict extraction yields, or the reason there is none. */
  ghost predicate RightAnswer(fs: Foreign, r: ScanRequest, m: Material, result: ScanResult)
  {
    if !r.knownNormalization then result == ScanBlocked(UnknownNormalization)
    else match m
      case Refused(code) => result == ScanBlocked(code)
      case Available(attachment, changed) =>
        match Extract(fs.extraction, Mode(r.limits, true), attachment)
        case Raised(failure) => result == ScanBlocked(MapFailure(failure))
        case Ok(acc) =>
          if changed.Some? then result == ScanBlocked(changed.value)
          else
            var target := TrueMatches(fs.hash, ProjectionsOf(fs, r, acc), r.fingerprints);
            if |target| > r.maxMatchCount then result == ScanBlocked(LimitExceeded)
            else
              && result.Passed? && result.memberCount == acc.members
              && SortedBy(result.matchedIds, TextKey) && |result.matchedIds| == |target|
              && (set id | id in result.matchedIds) == target
  }

  method Answer(fs: Foreign, r: ScanRequest, m: Material) returns (result: ScanResult)
    ensures RightAnswer(fs, r, m, result)
  {
    if !r.knownNormalization { return ScanBlocked(UnknownNormalization); }
    if m.Refused? { return ScanBlocked(m.code); }
    var outcome := ES.ExtractTextProjections(fs.extraction, Mode(r.limits, true), m.attachment);
    if outcome.Raised? { return ScanBlocked(MapFailure(outcome.failure)); }
    if m.changed.Some? { return ScanBlocked(m.changed.value); }
    var p := ProjectionsOf(fs, r, outcome.acc);
    var ids := MatchedFingerprintIds(fs.hash, p, r.fingerprints, r.maxMatchCount);
    if ids.None? { return ScanBlocked(LimitExceeded); }
    result := Passed(ids.value, outcome.acc.members);
  }

  class SafetyScanFacade {
    const library: Foreign
    var cache: map<string, (string, ScanResult)>

    constructor (library: Foreign)
      ensures this.library == library && cache == map[]
    {
      this.library := library;
      cache := map[];
    }

    /** A key is answered once; a different request under it is refused, and
        neither kind of repeat changes what is remembered. None is the error for a
        request that is not genuine. */
    method Scan(r: ScanRequest, m: Material) returns (answer: Option<ScanResult>)
      modifies this
      ensures answer.Some? <==> r.genuine
      ensures !r.genuine || r.key in old(cache) ==> cache == old(cache)
      ensures r.genuine && r.key in old(cache) ==>
                answer.value == if old(cache)[r.key].0 == r.sha then old(cache)[r.key].1
                                else ScanBlocked(IdempotencyConflict)
      ensures r.genuine && r.key !in old(cache) ==>
                RightAnswer(library, r, m, answer.value) && cache == old(cache)[r.key := (r.sha, answer.value)]
    {
      if !r.genuine { return None; }
      if r.key in cache {
        var (sha, known) := cache[r.key];
        return Some(if sha == r.sha then known else ScanBlocked(IdempotencyConflict));
      }
      var result := Answer(library, r, m);
      cache := cache[r.key := (r.sha, result)];
      answer := Some(result);
    }
  }
}
