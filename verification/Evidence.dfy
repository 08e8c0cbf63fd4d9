/** From the runner's output to the evidence store: cut, redacted, then stored under a byte budget. */
module Evidence {
  import opened Wrappers
  import opened Characters
  import opened Utf8
  import opened BoundedText
  import opened Redaction

  const MAX_OUTPUT_LIMIT: nat := 262_144
  const MAX_BYTES: nat := 1_048_576

  /** An artifact with its text redacted and its size and digest taken again. */
  function RedactedArtifact(item: Artifact, password: Text, digest: seq<Byte> -> string): (artifact: Artifact)
    ensures ContentMatches(artifact, digest) && artifact.truncated == item.truncated
  {
    var text := Redact(item.text, password);
    Artifact(|Encode(text)|, digest(Encode(text)), item.truncated, text)
  }

  datatype PutError = OverBudget | Corrupt

  datatype StoredArtifact = StoredArtifact(sha256: string, byteCount: nat)

  /** Files named by the digest of their content. */
  class ArtifactStore {
    const digest: seq<Byte> -> string
    const maxBytes: nat
    var files: map<string, seq<Byte>>

    predicate Valid()
      reads this
    {
      forall name :: name in files ==> digest(files[name]) == name && |files[name]| <= maxBytes
    }

    constructor (digest: seq<Byte> -> string, maxBytes: nat)
      ensures Valid() && this.digest == digest && this.maxBytes == maxBytes && files == map[]
    {
      this.digest, this.maxBytes, this.files := digest, maxBytes, map[];
    }

    method Put(data: seq<Byte>) returns (result: Result<StoredArtifact, PutError>)
      modifies this
      ensures old(Valid()) ==> Valid()
      ensures var corrupt := digest(data) in old(files) && digest(old(files)[digest(data)]) != digest(data);
              && (result.Err? <==> |data| > maxBytes || corrupt)
              && (result.Err? ==> result.error == if |data| > maxBytes then OverBudget else Corrupt)
      ensures result.Err? ==> files == old(files)
      ensures result.Ok? ==> result.value == StoredArtifact(digest(data), |data|) && digest(data) in files
      ensures result.Ok?
              ==> files == if digest(data) in old(files) then old(files) else old(files)[digest(data) := data]
    {
      if |data| > maxBytes {
        return Err(OverBudget);
      }
      var name := digest(data);
      if name in files {
        if digest(files[name]) != name {
          return Err(Corrupt);
        }
        return Ok(StoredArtifact(name, |data|));
      }
      files := files[name := data];
      return Ok(StoredArtifact(name, |data|));
    }
  }

  /** Output of any allowed length fits the budget after redaction with a password of ten bytes or more. */
  lemma RedactedOutputFits(text: Text, limit: nat, prefix: Text, password: Text)
    requires LongestFit(text, limit, prefix) && limit <= MAX_OUTPUT_LIMIT && Size(password) >= 10
    ensures Size(Redact(prefix, password)) <= MAX_BYTES
  {
    hide Redact;
    RedactGrowth(prefix, password);
  }

  /** The growth bound is reached: seven bytes become sixteen. */
  lemma GrowthIsReached(password: Text)
    requires Size(password) >= 10
    ensures var s := Points("token=x"); Size(s) == 7 && Size(Redact(s, password)) == 16
  {
    var s := Points("token=x");
    AsciiSize(s);
    NotLonger(s, password);
    assert SecretBy(s, 0, "token") && !Folds(s[0 + 0], 'p');
    assert FindSecret(s, 0) == Some(0) && ValueStart(s, 0) == 6 && ValueEnd(s, 6) == 7;
    assert Mask(s[7..]) == [];
    assert Mask(s) == s[..6] + Mark();
    AsciiSize(s[..6] + Mark());
  }

  /** A text is left alone by a password of more bytes than it has. */
  lemma NotLonger(s: Text, password: Text)
    requires password != [] && Size(s) < Size(password)
    ensures Replace(s, password) == s
  {
    hide Size, OccursAt, Occurs, Mark;
    match Find(s, password)
    case None =>
    case Some(i) =>
      OccurrenceIs(password, s, i);
      SizeSplits(s, i, i + |password|);
  }

  /** The whole way of one output stream: whatever is left of it is stored. */
  method StoreOutput(value: seq<CodePoint>, limit: nat, password: Text, store: ArtifactStore)
    returns (artifact: Artifact, stored: Option<Result<StoredArtifact, PutError>>)
    requires store.Valid() && store.maxBytes == MAX_BYTES && limit <= MAX_OUTPUT_LIMIT && Size(password) >= 10
    modifies store
    ensures store.Valid() && ContentMatches(artifact, store.digest)
    ensures exists prefix :: LongestFit(Replaced(value), limit, prefix) && artifact.text == Redact(prefix, password)
    ensures artifact.text == [] ==> stored == None && store.files == old(store.files)
    ensures artifact.text != [] ==>
              stored == Some(Ok(StoredArtifact(artifact.sha256, artifact.byteCount))) && artifact.sha256 in store.files
  {
    hide Redact, LongestFit, Replaced;
    var output := Bound(value, limit, store.digest);
    RedactedOutputFits(Replaced(value), limit, output.text, password);
    artifact := RedactedArtifact(output, password, store.digest);
    assert artifact.text == Redact(output.text, password) && Size(artifact.text) <= MAX_BYTES;
    stored := None;
    if artifact.text != [] {
      var result := store.Put(Encode(artifact.text));
      stored := Some(result);
    }
  }
}
