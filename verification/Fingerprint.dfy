/** The canonical `PATH_INFO_V1` fingerprint of a narinfo record. */
module Fingerprint {
  import opened Bytes
  import opened Sequences
  import opened Ordering
  import opened Narinfo

  const MAX_PATH_INFO_V1_LEN: nat := 524_626
  const MAX_REFERENCES: nat := 2_048
  const STORE_PREFIX: ByteString := Ascii("/nix/store/")
  const STORE_PATH: ByteString := Ascii("StorePath: ")
  const NAR_SIZE: ByteString := Ascii("NarSize: ")
  const REFERENCES: ByteString := Ascii("References: ")
  const VERSION: ByteString := Ascii("1")
  const USIZE_LIMIT: nat := 0x1_0000_0000_0000_0000

  // -------------------------------------------------------------------- fields

  datatype Field = Missing | Duplicated | Found(value: ByteString)

  function HasPrefix(prefix: ByteString): ByteString -> bool {
    (line: ByteString) => prefix <= line
  }

  /** The lines of the record that carry a field. */
  function FieldLines(narinfo: ByteString, prefix: ByteString): (r: seq<ByteString>) {
    Filter(HasPrefix(prefix), Split(narinfo, NL))
  }

  /** The value of a field that must occur exactly once. */
  function ExactlyOne(narinfo: ByteString, prefix: ByteString): (r: Field)
    ensures r.Found? <==> |FieldLines(narinfo, prefix)| == 1
    ensures r.Found? ==> FieldLines(narinfo, prefix) == [prefix + r.value]
  {
    var found := FieldLines(narinfo, prefix);
    FilterMember(HasPrefix(prefix), Split(narinfo, NL));
    if found == [] then Missing
    else if |found| > 1 then Duplicated
    else
      assert found[0] in found && HasPrefix(prefix)(found[0]);
      assert found == [found[0]] && found[0] == prefix + found[0][|prefix|..];
      Found(found[0][|prefix|..])
  }

  // --------------------------------------------------------------- store paths

  predicate StoreNameByte(b: Byte) {
    || 'a' as int <= b <= 'z' as int
    || 'A' as int <= b <= 'Z' as int
    || '0' as int <= b <= '9' as int
    || b == '+' as int || b == '-' as int || b == '.' as int || b == '_' as int || b == '?' as int || b == '=' as int
  }

  /** The hash part of a canonical store base name. */
  function StoreBaseHash(base: ByteString): (r: Option<ByteString>)
    ensures r.Some? ==> forall i :: 0 <= i < |base| ==> StoreNameByte(base[i])
  {
    var k := Position(base, DASH);
    if k == |base| then None
    else
      var hash, name := base[..k], base[k + 1..];
      if |hash| != 32 || !AllNix32(hash) || name == [] || |name| > 211 || name[0] == DOT
         || exists i :: 0 <= i < |name| && !StoreNameByte(name[i])
      then None
      else
        assert forall i :: 0 <= i < |base| ==>
          base[i] == if i < k then hash[i] else if i == k then DASH else name[i - k - 1];
        Some(hash)
  }

  predicate ValidStoreBase(base: ByteString) {
    StoreBaseHash(base).Some?
  }

  function StorePathHash(path: ByteString): (r: Option<ByteString>) {
    if STORE_PREFIX <= path then StoreBaseHash(path[|STORE_PREFIX|..]) else None
  }

  predicate ValidStorePath(path: ByteString) {
    StorePathHash(path).Some?
  }

  // ---------------------------------------------------------------- references

  function ReferenceTokens(references: ByteString): (r: seq<ByteString>) {
    if references == [] then [] else Split(references, SPACE)
  }

  predicate AllStoreBases(tokens: seq<ByteString>) {
    forall i :: 0 <= i < |tokens| ==> ValidStoreBase(tokens[i])
  }

  function CollectReferences(references: ByteString): (r: Option<seq<ByteString>>) {
    var tokens := ReferenceTokens(references);
    if |tokens| > MAX_REFERENCES || !AllStoreBases(tokens) then None else Some(Sort(tokens))
  }

  function StorePaths(bases: seq<ByteString>): (r: seq<ByteString>)
    ensures |r| == |bases|
    ensures forall i :: 0 <= i < |r| ==> r[i] == STORE_PREFIX + bases[i]
  {
    seq(|bases|, i requires 0 <= i < |bases| => STORE_PREFIX + bases[i])
  }

  function RenderReferences(bases: seq<ByteString>): (r: ByteString) {
    if bases == [] then [] else Join(StorePaths(bases), COMMA)
  }

  function Render(path: ByteString, narHash: ByteString, narSize: ByteString, bases: seq<ByteString>): (r: ByteString) {
    Join([VERSION, path, narHash, narSize, RenderReferences(bases)], SEMICOLON)
  }

  // ------------------------------------------------------------ canonical parse

  predicate Digits(s: ByteString) {
    forall i :: 0 <= i < |s| ==> '0' as int <= s[i] <= '9' as int
  }

  function DecimalValue(s: ByteString): nat
    requires Digits(s)
  {
    if s == [] then 0 else DecimalValue(s[..|s| - 1]) * 10 + (s[|s| - 1] - '0' as int)
  }

  /** A positive decimal below two to the 64th without a leading zero. */
  predicate ValidNarSize(s: ByteString) {
    s != [] && s[0] != '0' as int && Digits(s) && DecimalValue(s) < USIZE_LIMIT
  }

  predicate ValidReferenceList(s: ByteString) {
    s == [] || (var paths := Split(s, COMMA);
                |paths| <= MAX_REFERENCES
                && (forall i :: 0 <= i < |paths| ==> ValidStorePath(paths[i]))
                && StrictlyAscending(paths))
  }

  predicate NoControl(s: ByteString) {
    forall i :: 0 <= i < |s| ==> 32 <= s[i] && s[i] != 127
  }

  /** `PathInfoV1::parse` accepts. */
  predicate IsPathInfoV1(s: ByteString) {
    && s != [] && |s| <= MAX_PATH_INFO_V1_LEN
    && IsUtf8(s) && NoControl(s)
    && var fields := Split(s, SEMICOLON);
       && |fields| == 5
       && fields[0] == VERSION
       && ValidStorePath(fields[1])
       && IsNix32Sha256(fields[2])
       && ValidNarSize(fields[3])
       && ValidReferenceList(fields[4])
       && Join([VERSION, fields[1], fields[2], fields[3], fields[4]], SEMICOLON) == s
  }

  // --------------------------------------------------------------- construction

  /** The length the code computes before rendering. */
  function ReferencesLength(bases: seq<ByteString>): (r: nat) {
    if bases == [] then 0
    else
      var n := |bases| - 1;
      ReferencesLength(bases[..n]) + (if n != 0 then 1 else 0) + |STORE_PREFIX| + |bases[n]|
  }

  function RenderedLength(path: ByteString, narHash: ByteString, narSize: ByteString, bases: seq<ByteString>)
    : (r: nat) {
    ReferencesLength(bases) + 5 + |path| + |narHash| + |narSize|
  }

  /** The fingerprint built from the four fields, or `None` when the code rejects them. */
  function FromFields(path: ByteString, narHash: ByteString, narSize: ByteString, references: ByteString,
                      expectedPath: Option<ByteString>, expectedHash: ByteString): (r: Option<ByteString>)
  {
    if !IsUtf8(path) || (expectedPath.Some? && expectedPath.value != path)
       || StorePathHash(path) != Some(expectedHash)
       || !IsUtf8(narHash) || !IsUtf8(narSize) || !IsUtf8(references)
    then None
    else
      var collected := CollectReferences(references);
      if collected.None? || AdjacentDuplicate(collected.value)
         || RenderedLength(path, narHash, narSize, collected.value) > MAX_PATH_INFO_V1_LEN
      then None
      else
        var rendered := Render(path, narHash, narSize, collected.value);
        if IsPathInfoV1(rendered) then Some(rendered) else None
  }

  function FromNarinfo(narinfo: ByteString, expectedPath: Option<ByteString>, expectedHash: ByteString)
    : (r: Option<ByteString>) {
    match (ExactlyOne(narinfo, STORE_PATH), ExactlyOne(narinfo, NAR_HASH),
           ExactlyOne(narinfo, NAR_SIZE), ExactlyOne(narinfo, REFERENCES))
    case (Found(path), Found(narHash), Found(narSize), Found(references)) =>
      FromFields(path, narHash, narSize, references, expectedPath, expectedHash)
    case _ => None
  }
}
