/** Byte-preserving `.narinfo` edits: the line structure of a record, the mutation
    profile it must meet, and the add, replace and remove mutations. */
module Narinfo {
  import opened Bytes
  import opened Sequences

  const MAX_NARINFO_BYTES: nat := 1_048_576
  const MAX_SIGNATURE_VALUE_BYTES: nat := 1_024
  const SIG: ByteString := Ascii("Sig: ")
  const SIG_FIELD: ByteString := Ascii("Sig:")
  const NAR_HASH: ByteString := Ascii("NarHash: ")
  const SHA256: ByteString := Ascii("sha256:")

  datatype FileError = NarinfoTooLarge | InvalidNarinfo | SignatureConflict | Interference | Io

  datatype Mutation =
    | Add(signature: ByteString)
    | Replace(oldKeyNames: seq<ByteString>, signature: ByteString)
    | Remove(keyNames: seq<ByteString>)

  datatype Edit = Unchanged | Changed(bytes: ByteString)

  // -------------------------------------------------------------------- lines

  /** End of the first line of `s`, past its newline when it has one. */
  function LineEnd(s: ByteString): (e: nat)
    requires s != []
    ensures 1 <= e <= |s|
  {
    var k := Position(s, NL);
    if k == |s| then |s| else k + 1
  }

  /** The lines of a record, each with its newline; no empty line after a final newline. */
  function Lines(s: ByteString): (lines: seq<ByteString>)
    decreases |s|
  {
    if s == [] then [] else [s[..LineEnd(s)]] + Lines(s[LineEnd(s)..])
  }

  predicate Terminated(s: ByteString) {
    s != [] && s[|s| - 1] == NL
  }

  function Content(line: ByteString): (r: ByteString) {
    if Terminated(line) then line[..|line| - 1] else line
  }

  function Contents(lines: seq<ByteString>): (r: seq<ByteString>)
    ensures |r| == |lines|
    ensures forall i :: 0 <= i < |lines| ==> r[i] == Content(lines[i])
  {
    seq(|lines|, i requires 0 <= i < |lines| => Content(lines[i]))
  }

  /** One line: non-empty, with a newline nowhere but at its end. */
  predicate IsLine(l: ByteString) {
    l != [] && forall i :: 0 <= i < |l| - 1 ==> l[i] != NL
  }

  /** What `Lines` yields: every line but the last is terminated. */
  predicate IsLineSeq(lines: seq<ByteString>) {
    && (forall i :: 0 <= i < |lines| ==> IsLine(lines[i]))
    && (forall i :: 0 <= i < |lines| - 1 ==> Terminated(lines[i]))
  }

  lemma FirstIsLine(s: ByteString)
    requires s != []
    ensures IsLine(s[..LineEnd(s)]) && (LineEnd(s) < |s| ==> Terminated(s[..LineEnd(s)]))
  {
    hide Position;
  }

  lemma {:induction false} LinesPartition(s: ByteString)
    ensures IsLineSeq(Lines(s)) && Flatten(Lines(s)) == s
    decreases |s|
  {
    hide LineEnd, IsLine, Terminated;
    if s != [] {
      var line, rest := s[..LineEnd(s)], s[LineEnd(s)..];
      FirstIsLine(s);
      LinesPartition(rest);
      assert Lines(s) == [line] + Lines(rest) && Lines(s)[1..] == Lines(rest);
      assert s == line + rest;
      if rest == [] {
        assert Lines(rest) == [];
      }
    }
  }

  lemma {:induction false} LinesOfFlatten(lines: seq<ByteString>)
    requires IsLineSeq(lines)
    ensures Lines(Flatten(lines)) == lines
    decreases |lines|
  {
    if lines != [] {
      var s, head := Flatten(lines), lines[0];
      LinesOfFlatten(lines[1..]);
      if Terminated(head) {
        PositionUnique(s, NL, |head| - 1);
      } else {
        assert lines[1..] == [];
        assert s == head;
        PositionUnique(s, NL, |head|);
      }
      assert s[..|head|] == head;
      assert s[|head|..] == Flatten(lines[1..]);
    }
  }

  lemma {:induction false} TerminatedByLastLine(lines: seq<ByteString>)
    requires IsLineSeq(lines) && lines != []
    ensures Terminated(Flatten(lines)) == Terminated(lines[|lines| - 1])
    ensures Flatten(lines) != []
  {
    var n := |lines| - 1;
    assert lines == lines[..n] + [lines[n]];
    FlattenSnoc(lines[..n], lines[n]);
  }

  // ------------------------------------------------------------ signature lines

  predicate Nix32Byte(b: Byte) {
    '0' as int <= b <= '9' as int
    || ('a' as int <= b <= 'z' as int
        && b != 'e' as int && b != 'o' as int && b != 't' as int && b != 'u' as int)
  }

  predicate AllNix32(s: ByteString) {
    forall i :: 0 <= i < |s| ==> Nix32Byte(s[i])
  }

  predicate IsNix32Sha256(value: ByteString) {
    |value| == |SHA256| + 52 && SHA256 <= value && AllNix32(value[|SHA256|..])
  }

  /** The key name before the first colon of a signature value. */
  function SignatureKey(value: ByteString): (r: Option<ByteString>)
    ensures r.Some? ==> WellFormedKeyName(r.value) && r.value + [COLON] <= value
  {
    var k := Position(value, COLON);
    if k == |value| then None
    else if !WellFormedKeyName(value[..k]) then None
    else assert value[..k] + [COLON] == value[..k + 1]; Some(value[..k])
  }

  predicate WellFormedKeyName(name: ByteString) {
    name != [] && IsAscii(name) && COLON !in name && NL !in name && CR !in name
  }

  lemma SignatureKeyOf(name: ByteString, rest: ByteString)
    requires WellFormedKeyName(name)
    ensures SignatureKey(name + [COLON] + rest) == Some(name)
  {
    var value := name + [COLON] + rest;
    PositionUnique(value, COLON, |name|);
    assert value[..|name|] == name;
  }

  /** The key a line signs with, when its content is a well-formed `Sig: ` line. */
  function LineKey(content: ByteString): (r: Option<ByteString>) {
    if SIG <= content then SignatureKey(content[|SIG|..]) else None
  }

  function SignedBy(key: ByteString): ByteString -> bool {
    (content: ByteString) => LineKey(content) == Some(key)
  }

  function UnsignedLine(): ByteString -> bool {
    (content: ByteString) => !(SIG <= content)
  }

  /** The contents signed by `key`, in order. */
  function SignaturesBy(contents: seq<ByteString>, key: ByteString): (r: seq<ByteString>) {
    Filter(SignedBy(key), contents)
  }

  /** The contents that are not `Sig: ` lines, in order. */
  function UnsignedLines(contents: seq<ByteString>): (r: seq<ByteString>) {
    Filter(UnsignedLine(), contents)
  }

  // ------------------------------------------------------------------- profile

  function NarHashLine(): ByteString -> bool {
    (content: ByteString) => NAR_HASH <= content
  }

  predicate WellFormedLine(content: ByteString) {
    && (NAR_HASH <= content ==> IsNix32Sha256(content[|NAR_HASH|..]))
    && (SIG_FIELD <= content ==> SIG <= content)
    && (SIG <= content ==> LineKey(content).Some?)
  }

  predicate WellFormedLines(contents: seq<ByteString>) {
    forall i :: 0 <= i < |contents| ==> WellFormedLine(contents[i])
  }

  predicate KeyedLines(contents: seq<ByteString>) {
    forall i :: 0 <= i < |contents| && SIG <= contents[i] ==> LineKey(contents[i]).Some?
  }

  predicate ValidNarinfo(s: ByteString) {
    && |s| <= MAX_NARINFO_BYTES
    && CR !in s
    && WellFormedLines(Contents(Lines(s)))
    && |Filter(NarHashLine(), Contents(Lines(s)))| == 1
  }

  // --------------------------------------------------------------------- edits

  function KeptBy(names: seq<ByteString>): ByteString -> bool {
    (content: ByteString) => LineKey(content).None? || LineKey(content).value !in names
  }

  function OnContent(p: ByteString -> bool): ByteString -> bool {
    (line: ByteString) => p(Content(line))
  }

  function Keep(lines: seq<ByteString>, names: seq<ByteString>): (r: seq<ByteString>) {
    Filter(OnContent(KeptBy(names)), lines)
  }

  /** The record without the signature lines of the named keys. */
  function Filtered(s: ByteString, names: seq<ByteString>): (r: ByteString) {
    Flatten(Keep(Lines(s), names))
  }

  function SignatureLine(): ByteString -> bool {
    (line: ByteString) => SIG <= Content(line)
  }

  /** Number of lines before the insertion point: just past the last `Sig: ` line,
      or every line when there is none. */
  function InsertAt(lines: seq<ByteString>): (k: nat)
    ensures k <= |lines|
    ensures k < |lines| ==> k > 0 && SIG <= Content(lines[k - 1])
    ensures forall i :: k <= i < |lines| ==> !(SIG <= Content(lines[i]))
  {
    var signed := ToLast(SignatureLine(), lines);
    if signed == 0 then |lines| else signed
  }

  lemma {:induction false} LinesFit(s: ByteString, k: nat)
    requires k <= |Lines(s)|
    ensures |Flatten(Lines(s)[..k])| <= |s|
  {
    hide Lines, IsLineSeq;
    var lines := Lines(s);
    LinesPartition(s);
    assert lines == lines[..k] + lines[k..];
    FlattenAppend(lines[..k], lines[k..]);
  }

  function InsertionOffset(s: ByteString): (r: nat)
    ensures r <= |s|
  {
    hide Lines, InsertAt, Flatten;
    LinesFit(s, InsertAt(Lines(s)));
    |Flatten(Lines(s)[..InsertAt(Lines(s))])|
  }

  /** The record with one `Sig: ` line added after the last signature line. */
  function Inserted(s: ByteString, signature: ByteString): (r: ByteString) {
    var at := InsertionOffset(s);
    s[..at]
    + (if at == |s| && s != [] && !Terminated(s) then [NL] else [])
    + SIG + signature
    + (if at != |s| || Terminated(s) then [NL] else [])
    + s[at..]
  }

  predicate ValidSignatureArgument(signature: ByteString) {
    && |signature| <= MAX_SIGNATURE_VALUE_BYTES
    && NL !in signature && CR !in signature
    && SignatureKey(signature).Some?
  }

  predicate ValidKeyNames(names: seq<ByteString>) {
    forall i :: 0 <= i < |names| ==> WellFormedKeyName(names[i])
  }

  predicate AllEqual(lines: seq<ByteString>, line: ByteString) {
    forall i :: 0 <= i < |lines| ==> lines[i] == line
  }

  function AddSignature(s: ByteString, signature: ByteString): (r: Result<Edit, FileError>) {
    var contents := Contents(Lines(s));
    if !ValidSignatureArgument(signature) || !KeyedLines(contents) then Failure(InvalidNarinfo)
    else
      var existing := SignaturesBy(contents, SignatureKey(signature).value);
      if !AllEqual(existing, SIG + signature) then Failure(SignatureConflict)
      else if existing != [] then Success(Unchanged)
      else if |s| + |signature| + 6 > MAX_NARINFO_BYTES then Failure(NarinfoTooLarge)
      else Success(Changed(Inserted(s, signature)))
  }

  function ReplaceSignatures(s: ByteString, names: seq<ByteString>, signature: ByteString)
    : (r: Result<Edit, FileError>) {
    if !ValidKeyNames(names) || !ValidSignatureArgument(signature) || !KeyedLines(Contents(Lines(s))) then
      Failure(InvalidNarinfo)
    else
      var filtered := Filtered(s, names);
      match AddSignature(filtered, signature)
      case Failure(e) => Failure(e)
      case Success(Unchanged) => Success(if filtered == s then Unchanged else Changed(filtered))
      case Success(Changed(out)) => Success(if out == s then Unchanged else Changed(out))
  }

  function RemoveSignatures(s: ByteString, names: seq<ByteString>): (r: Result<Edit, FileError>) {
    if !ValidKeyNames(names) || !KeyedLines(Contents(Lines(s))) then Failure(InvalidNarinfo)
    else
      var out := Filtered(s, names);
      Success(if out == s then Unchanged else Changed(out))
  }

  function EditNarinfo(s: ByteString, m: Mutation): (r: Result<Edit, FileError>) {
    if |s| > MAX_NARINFO_BYTES then Failure(NarinfoTooLarge)
    else if !ValidNarinfo(s) then Failure(InvalidNarinfo)
    else
      match m
      case Add(signature) => AddSignature(s, signature)
      case Replace(names, signature) => ReplaceSignatures(s, names, signature)
      case Remove(names) => RemoveSignatures(s, names)
  }

  /** The record after an edit. */
  function Apply(edit: Edit, s: ByteString): (r: ByteString) {
    match edit case Unchanged => s case Changed(bytes) => bytes
  }
}
