/** Blocks and validators as the indexer reports them, and keys as the monitor compares them. */
module KleverTypes {

  datatype IndexerBlock = IndexerBlock(nonce: nat, epoch: nat, producerBLS: string, validators: seq<string>)

  datatype BlockRec = BlockRec(nonce: nat, epoch: nat, producerBLS: string, signers: set<string>, hasSigners: bool)

  datatype ManagedNode = ManagedNode(bls: string, name: string)

  datatype RawValidator = RawValidator(blsPublicKey: string, list: string)

  /** uint64 counters loop past this value forever. */
  const MAX_UINT64: nat := 0xFFFF_FFFF_FFFF_FFFF

  function ToLower(s: string): string {
    seq(|s|, i requires 0 <= i < |s| => if 'A' <= s[i] <= 'Z' then s[i] - 'A' + 'a' else s[i])
  }

  predicate IsBlank(c: char) {
    c == ' ' || c == '\t' || c == '\n' || c == '\r'
  }

  function TrimSpace(s: string): string
    decreases |s|
  {
    if s != "" && IsBlank(s[0]) then TrimSpace(s[1..]) else
    if s != "" && IsBlank(s[|s| - 1]) then TrimSpace(s[..|s| - 1]) else s
  }

  /** Lower case, without an "0x" prefix. */
  function NormalizeBLS(s: string): string {
    var t := ToLower(TrimSpace(s));
    if "0x" <= t then t[2..] else t
  }

  function Keys(validators: seq<string>): set<string> {
    set s | s in validators :: NormalizeBLS(s)
  }

  function ToRec(b: IndexerBlock): BlockRec {
    BlockRec(b.nonce, b.epoch, NormalizeBLS(b.producerBLS), Keys(b.validators), b.validators != [])
  }

  /** The distinct, nonempty keys of the managed nodes. */
  function ManagedKeys(managed: seq<ManagedNode>): set<string> {
    (set n | n in managed :: NormalizeBLS(n.bls)) - {""}
  }

  // ---------------------------------------------------------------- which keys are the same

  predicate AllBlank(s: string) {
    forall i :: 0 <= i < |s| ==> IsBlank(s[i])
  }

  lemma {:induction false} TrimBlanks(left: string, s: string, right: string)
    requires AllBlank(left) && AllBlank(right) && s != "" && !IsBlank(s[0]) && !IsBlank(s[|s| - 1])
    ensures TrimSpace(left + s + right) == s
    decreases |left| + |right|
  {
    var t := left + s + right;
    if left != "" {
      assert t[1..] == left[1..] + s + right;
      TrimBlanks(left[1..], s, right);
    } else if right != "" {
      var n := |right| - 1;
      assert t[0] == s[0] && t[|t| - 1] == right[n] && t[..|t| - 1] == left + s + right[..n];
      TrimBlanks(left, s, right[..n]);
    } else {
      assert t == s;
    }
  }

  /** Keys compare equal whatever their case, the white space around them and an "0x" in front. */
  lemma SpellingsOfKey(left: string, prefix: string, spelled: string, right: string, key: string)
    requires AllBlank(left) && AllBlank(right) && prefix in {"", "0x", "0X"}
    requires key != "" && !IsBlank(key[0]) && !IsBlank(key[|key| - 1]) && !("0x" <= key) && ToLower(spelled) == key
    ensures NormalizeBLS(left + (prefix + spelled) + right) == key
  {
    var s := prefix + spelled;
    assert |spelled| == |key|;
    assert spelled[0] == key[0] || 'A' <= spelled[0] <= 'Z';
    assert spelled[|spelled| - 1] == key[|key| - 1] || 'A' <= spelled[|spelled| - 1] <= 'Z';
    assert s[|s| - 1] == spelled[|spelled| - 1];
    TrimBlanks(left, s, right);
    assert ToLower(s) == ToLower(prefix) + key;
    if prefix == "" {
      assert ToLower(s) == key;
    } else {
      assert ToLower(prefix) == "0x";
      assert ToLower(s)[..2] == "0x" && ToLower(s)[2..] == key;
    }
  }
}
