/**
  The LocalSend inbox writer (`inbox.rs`): an upload is streamed into a staging file, checked
  against its declared size and digest, and only then moved under a free name.
 */
module InboxWriters {
  import opened Prelude
  import Names

  datatype Upload = Upload(sessionId: string, fileId: string, fileName: string, size: U64, sha256: Option<string>)

  datatype UploadError = InvalidName | TooLong | SizeMismatch | DigestMismatch | NamesExhausted

  /** `validate_file_name`: one normal path component. */
  predicate ValidName(name: string) {
    name != [] && '/' !in name && '\\' !in name && name != "." && name != ".."
  }

  predicate IdentifierChar(c: char) {
    'a' <= c <= 'z' || 'A' <= c <= 'Z' || '0' <= c <= '9' || c == '-' || c == '_'
  }

  /** `safe_identifier`, with the UUID it falls back to. */
  function SafeIdentifier(s: string, uuid: string): string {
    if s == [] then uuid else seq(|s|, i requires 0 <= i < |s| => if IdentifierChar(s[i]) then s[i] else '-')
  }

  function StagingName(u: Upload, uuid: string): string {
    SafeIdentifier(u.sessionId, uuid) + "-" + SafeIdentifier(u.fileId, uuid) + ".part"
  }

  /** Only ASCII letters, digits, dash and underscore reach the name of a staging file; others become dashes. */
  lemma SafeIdentifierChars(s: string, uuid: string, i: nat)
    requires i < |s|
    ensures |SafeIdentifier(s, uuid)| == |s|
    ensures SafeIdentifier(s, uuid)[i] ==
            if 'a' <= s[i] <= 'z' || 'A' <= s[i] <= 'Z' || '0' <= s[i] <= '9' || s[i] == '-' || s[i] == '_' then s[i]
            else '-'
  {
  }

  /** So the staging name of an upload with ids has no separator and ends in `.part`. */
  lemma StagingNameSafe(u: Upload, uuid: string)
    requires u.sessionId != [] && u.fileId != []
    ensures var name := StagingName(u, uuid);
            && |name| == |u.sessionId| + 1 + |u.fileId| + 5 && name[|name| - 5..] == ".part"
            && forall c :: c in name ==> c != '/' && c != '\\'
  {
    var a, b := SafeIdentifier(u.sessionId, uuid), SafeIdentifier(u.fileId, uuid);
    assert StagingName(u, uuid) == a + "-" + b + ".part";
    forall c | c in a ensures c != '/' && c != '\\' { var i :| 0 <= i < |a| && a[i] == c; }
    forall c | c in b ensures c != '/' && c != '\\' { var i :| 0 <= i < |b| && b[i] == c; }
    assert forall c :: c in ".part" ==> c != '/' && c != '\\';
  }

  function LowerChar(c: char): char { if 'A' <= c <= 'Z' then (c as int + 32) as char else c }

  /** `eq_ignore_ascii_case`. */
  predicate SameIgnoringCase(a: string, b: string) {
    |a| == |b| && forall i :: 0 <= i < |a| ==> LowerChar(a[i]) == LowerChar(b[i])
  }

  /** Digests match exactly when they differ at most in the case of ASCII letters. */
  lemma SameIgnoringCaseIff(a: string, b: string)
    ensures SameIgnoringCase(a, b) <==>
            && |a| == |b|
            && forall i :: 0 <= i < |a| ==>
                 || a[i] == b[i]
                 || ('A' <= a[i] <= 'Z' && b[i] as int == a[i] as int + 32)
                 || ('A' <= b[i] <= 'Z' && a[i] as int == b[i] as int + 32)
  {
  }

  predicate DigestOk(hash: Bytes -> string, u: Upload, body: Bytes) {
    u.sha256.Some? ==> SameIgnoringCase(u.sha256.value, hash(body))
  }

  /** What the reader delivers: everything up to its first empty read. */
  function Body(pieces: seq<Bytes>): Bytes {
    if pieces == [] || pieces[0] == [] then [] else pieces[0] + Body(pieces[1..])
  }

  class InboxWriter {
    const hash: Bytes -> string
    var inbox: map<string, Bytes>
    var staging: map<string, Bytes>

    constructor (hash: Bytes -> string, inbox: map<string, Bytes>)
      ensures this.hash == hash && this.inbox == inbox && staging == map[]
    {
      this.hash, this.inbox, staging := hash, inbox, map[];
    }

    function Listing(): set<string> reads this { inbox.Keys + {".incoming"} }

    /** The read loop: stops before the piece that would exceed the declared size. */
    method Stream(u: Upload, part: string, pieces: seq<Bytes>) returns (ok: bool, written: Bytes)
      modifies this`staging
      ensures ok <==> |Body(pieces)| <= u.size
      ensures ok ==> written == Body(pieces)
      ensures |written| <= u.size && staging == old(staging)[part := written]
    {
      written := [];
      staging := staging[part := []];
      var i := 0;
      while i < |pieces| && pieces[i] != []
        invariant 0 <= i <= |pieces|
        invariant written + Body(pieces[i..]) == Body(pieces)
        invariant |written| <= u.size && staging == old(staging)[part := written]
      {
        assert pieces[i..][1..] == pieces[i + 1..];
        if |written| + |pieces[i]| > u.size { return false, written; }
        written := written + pieces[i];
        staging := staging[part := written];
        i := i + 1;
      }
      ok := true;
    }

    /**
      `write_upload`: what happens depends only on the bytes delivered, not on how they were cut
      into reads. It succeeds exactly for a valid name, the declared length and a matching digest
      (short of a directory with a file for every suffix); it then adds one entry with exactly
      those bytes. Otherwise the inbox is untouched, and the staging file never holds more than
      the declared size.
     */
    method WriteUpload(u: Upload, uuid: string, pieces: seq<Bytes>) returns (r: Result<string, UploadError>)
      modifies this
      ensures r.Ok? ==>
                && u.fileName != "" && u.fileName != "." && u.fileName != ".."
                && forall c :: c in u.fileName ==> c != '/' && c != '\\'
      ensures (|| u.fileName == "" || u.fileName == "." || u.fileName == ".."
               || '/' in u.fileName || '\\' in u.fileName) ==>
                r == Err(InvalidName) && staging == old(staging)
      ensures r.Ok? ==> ValidName(u.fileName) && |Body(pieces)| == u.size && DigestOk(hash, u, Body(pieces))
      ensures ValidName(u.fileName) && |Body(pieces)| == u.size && DigestOk(hash, u, Body(pieces)) ==>
                r.Ok? || (r == Err(NamesExhausted) && |old(inbox)| + 1 >= TWO_32)
      ensures r.Ok? ==> Names.FirstNumbered(old(Listing()), u.fileName, r.value)
      ensures r.Ok? ==> r.value !in old(inbox) && inbox == old(inbox)[r.value := Body(pieces)]
      ensures r.Ok? ==> staging == old(staging) - {StagingName(u, uuid)}
      ensures r.Err? ==> inbox == old(inbox)
      ensures r.Err? && ValidName(u.fileName) ==>
                && staging.Keys == old(staging).Keys + {StagingName(u, uuid)}
                && |staging[StagingName(u, uuid)]| <= u.size
                && forall p :: p in old(staging) && p != StagingName(u, uuid) ==> staging[p] == old(staging)[p]
    {
      if !ValidName(u.fileName) { return Err(InvalidName); }
      var part := StagingName(u, uuid);
      var ok, written := Stream(u, part, pieces);
      if !ok { return Err(TooLong); }
      if |written| != u.size { return Err(SizeMismatch); }
      if !DigestOk(hash, u, written) { return Err(DigestMismatch); }
      var target, _ := Names.NextAvailableTarget(Listing(), u.fileName);
      if target.None? {
        ListingSize(inbox.Keys);
        return Err(NamesExhausted);
      }
      inbox := inbox[target.value := written];
      staging := staging - {part};
      r := Ok(target.value);
    }
  }

  lemma ListingSize(names: set<string>)
    ensures |names + {".incoming"}| <= |names| + 1
  {
  }
}
