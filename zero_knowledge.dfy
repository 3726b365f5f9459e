/**
 * ZeroKnowlegdeService: the acl_zero_knowledge table of identity tokens. A
 * token stores only hashes of the signer's secret; it is checked later
 * against a claimed identity, or, with no claim, merely for being unexpired.
 * Also the Merkle-root loop over the identity fields and the proof built and
 * checked from it.
 */
module ZeroKnowledge {
  import opened Wrappers
  import opened Text
  import opened Platform

  /** The identity a verification request claims; any key may be missing. */
  datatype Claim = Claim(matricula: Option<string>, cpf: Option<string>, senha: Option<string>, otherKeys: nat)
  {
    /** An empty array is falsy. */
    predicate IsEmpty() {
      matricula.None? && cpf.None? && senha.None? && otherKeys == 0
    }
  }

  /** The json-encoded merkle_proof column. */
  datatype MerkleProof = MerkleProof(root: string, path: seq<string>, timestamp: int)

  /** A row of acl_zero_knowledge. */
  datatype ZkRecord = ZkRecord(
    userMatricula: string,
    dataHash: string,
    merkleProof: MerkleProof,
    commitment: string,
    createdAt: int,
    expiresAt: int)

  /** The array createUserProof returns. */
  datatype UserProof = UserProof(zkToken: string, challengeData: string, proofRequired: bool)

  /** now()->addHours(24) */
  const TOKEN_LIFETIME: int := 24 * SECONDS_PER_HOUR

  /** PHP truthiness of a string: null, '' and '0' are false. */
  predicate Truthy(s: Option<string>) {
    s.Some? && s.value != "" && s.value != "0"
  }

  /** implode('|', ...) */
  function JoinBar(parts: seq<string>): string {
    if parts == [] then ""
    else if |parts| == 1 then parts[0]
    else JoinBar(parts[..|parts| - 1]) + "|" + parts[|parts| - 1]
  }

  /** The components of the secret: matricula, cpf and, for a truthy password, its hash. */
  function SecretComponents(p: Primitives, matricula: string, cpf: string, senha: Option<string>): seq<string> {
    [matricula, cpf] + (if Truthy(senha) then [Sha256Hex(p, senha.value)] else [])
  }

  /** generateUserSecret */
  function GenerateUserSecret(p: Primitives, matricula: string, cpf: string, senha: Option<string>): (secret: string)
    ensures IsLowerHex(secret)
  {
    Sha256Hex(p, JoinBar(SecretComponents(p, matricula, cpf, senha)) + p.appKey)
  }

  /**
   * The password joins the secret only when truthy, so '0', '' and no
   * password give the same secret; a truthy one adds a third component.
   */
  lemma FalsyPasswordIsNoPassword(p: Primitives, matricula: string, cpf: string)
    ensures GenerateUserSecret(p, matricula, cpf, Some("0")) == GenerateUserSecret(p, matricula, cpf, None)
    ensures GenerateUserSecret(p, matricula, cpf, Some("")) == GenerateUserSecret(p, matricula, cpf, None)
    ensures forall s :: Truthy(Some(s)) ==> |SecretComponents(p, matricula, cpf, Some(s))| == 3
  {
  }

  // -------------------------------------------------------- Merkle tree

  /** One hash of a level's pair `k`; an odd level pairs its last node with itself. */
  function PairHash(p: Primitives, level: seq<string>, k: nat): string
    requires 2 * k < |level|
  {
    var left := level[2 * k];
    var right := if 2 * k + 1 < |level| then level[2 * k + 1] else left;
    Sha256Hex(p, left + right)
  }

  /** The level above `level`. */
  function NextLevel(p: Primitives, level: seq<string>): (r: seq<string>)
    ensures |r| == (|level| + 1) / 2
  {
    seq((|level| + 1) / 2, k requires 0 <= k < (|level| + 1) / 2 => PairHash(p, level, k))
  }

  /** What the while loop leaves: the levels folded until at most one node is left. */
  function Fold(p: Primitives, level: seq<string>): seq<string>
    decreases |level|
  {
    if |level| <= 1 then level else Fold(p, NextLevel(p, level))
  }

  /** The result has one node for a non-empty level and none for an empty one. */
  lemma {:induction false} FoldSize(p: Primitives, level: seq<string>)
    ensures |Fold(p, level)| == if level == [] then 0 else 1
    decreases |level|
  {
    if |level| > 1 {
      FoldSize(p, NextLevel(p, level));
    }
  }

  /** array_map(fn($item) => hash('sha256', $item), $data) */
  function Leaves(p: Primitives, data: seq<string>): (r: seq<string>)
    ensures |r| == |data|
  {
    seq(|data|, i requires 0 <= i < |data| => Sha256Hex(p, data[i]))
  }

  /** One pass of the for loop: pairs are hashed in order into the new level. */
  method BuildLevel(p: Primitives, leaves: seq<string>) returns (newLevel: seq<string>)
    ensures newLevel == NextLevel(p, leaves)
  {
    newLevel := [];
    var i := 0;
    while i < |leaves|
      invariant 0 <= i <= |leaves| + 1 && i % 2 == 0
      invariant |newLevel| == i / 2
      invariant forall k :: 0 <= k < i / 2 ==> newLevel[k] == PairHash(p, leaves, k)
      decreases |leaves| - i
    {
      var left := leaves[i];
      var right := if i + 1 < |leaves| then leaves[i + 1] else left;
      newLevel := newLevel + [Sha256Hex(p, left + right)];
      i := i + 2;
    }
  }

  /** buildMerkleTree: the root alone for non-empty input, the empty array for none. */
  method BuildMerkleTree(p: Primitives, data: seq<string>) returns (tree: seq<string>)
    ensures tree == Fold(p, Leaves(p, data))
    ensures |tree| == if data == [] then 0 else 1
  {
    var leaves := Leaves(p, data);
    FoldSize(p, leaves);
    while |leaves| > 1
      invariant Fold(p, leaves) == Fold(p, Leaves(p, data))
      decreases |leaves|
    {
      leaves := BuildLevel(p, leaves);
    }
    tree := leaves;
  }

  /** Two leaves fold to the hash of the two leaf hashes run together; three to the pair above a duplicated last. */
  lemma SmallTrees(p: Primitives, a: string, b: string, c: string)
    ensures Fold(p, Leaves(p, [a, b])) == [Sha256Hex(p, Sha256Hex(p, a) + Sha256Hex(p, b))]
    ensures Fold(p, Leaves(p, [a, b, c])) ==
      [Sha256Hex(p, Sha256Hex(p, Sha256Hex(p, a) + Sha256Hex(p, b)) + Sha256Hex(p, Sha256Hex(p, c) + Sha256Hex(p, c)))]
  {
    var l2 := Leaves(p, [a, b]);
    assert NextLevel(p, l2) == [PairHash(p, l2, 0)];
    var l3 := Leaves(p, [a, b, c]);
    var n3 := NextLevel(p, l3);
    assert l3 == [Sha256Hex(p, a), Sha256Hex(p, b), Sha256Hex(p, c)];
    assert PairHash(p, l3, 1) == Sha256Hex(p, Sha256Hex(p, c) + Sha256Hex(p, c));
    assert n3 == [PairHash(p, l3, 0), PairHash(p, l3, 1)];
    assert NextLevel(p, n3) == [PairHash(p, n3, 0)];
    assert Fold(p, l3) == Fold(p, n3) == Fold(p, NextLevel(p, n3));
  }

  /** generateMerkleProof: the first node or '', a one-element path, and the time. */
  function GenerateMerkleProof(p: Primitives, tree: seq<string>, data: string, time: int): (proof: MerkleProof)
    ensures |proof.path| == 1
    ensures proof.root == (if tree == [] then "" else tree[0])
  {
    MerkleProof(if tree == [] then "" else tree[0], [Sha256Hex(p, data + "path")], time)
  }

  /** verifyMerkleProof: only that root and path are non-empty (empty() is also true for '0'). */
  predicate VerifyMerkleProof(proof: MerkleProof, dataHash: string) {
    proof.root != "" && proof.root != "0" && proof.path != []
  }

  /**
   * A proof built from a non-empty tree of SHA-256 hashes passes the check
   * for every data hash, so the check binds nothing to the data.
   */
  lemma MerkleProofIgnoresData(p: Primitives, data: seq<string>, secret: string, time: int, anyHash: string)
    requires DigestLength(p) && data != []
    ensures VerifyMerkleProof(GenerateMerkleProof(p, Fold(p, Leaves(p, data)), secret, time), anyHash)
  {
    var leaves := Leaves(p, data);
    FoldSize(p, leaves);
    var tree := Fold(p, leaves);
    FoldHashes(p, leaves);
    assert |tree[0]| == 64;
  }

  /** With 32-byte digests every node of a folded non-empty level of leaf hashes is 64 hex digits. */
  lemma {:induction false} FoldHashes(p: Primitives, level: seq<string>)
    requires DigestLength(p)
    requires forall i :: 0 <= i < |level| ==> |level[i]| == 64
    ensures forall i :: 0 <= i < |Fold(p, level)| ==> |Fold(p, level)[i]| == 64
    decreases |level|
  {
    if |level| > 1 {
      FoldHashes(p, NextLevel(p, level));
    }
  }

  // -------------------------------------------------------------- tokens

  /** 'zk_' . bin2hex(random_bytes(16)) */
  function ZkToken(randomBytes: string): string
    requires |randomBytes| == 16
  {
    PrefixedHexId("zk_", randomBytes)
  }

  /**
   * verifyProof on the looked-up row: false without an unexpired row
   * (still valid at expires_at itself); a non-empty claim must rebuild the
   * stored hash; an empty or absent claim is accepted.
   */
  function VerifyRecord(p: Primitives, record: Option<ZkRecord>, claim: Option<Claim>, now: int): bool {
    if record.None? || now > record.value.expiresAt then false
    else if claim.Some? && !claim.value.IsEmpty() then
      var c := claim.value;
      record.value.dataHash == Sha256Hex(p, GenerateUserSecret(p, c.matricula.GetOr(""), c.cpf.GetOr(""), c.senha))
    else true
  }

  /** The row createUserProof inserts. */
  function NewZkRecord(p: Primitives, matricula: string, cpf: string, senha: Option<string>, nonceBytes: string,
                       time: int, now: int): (r: ZkRecord)
    ensures r.dataHash == Sha256Hex(p, GenerateUserSecret(p, matricula, cpf, senha))
    ensures r.expiresAt == now + TOKEN_LIFETIME
  {
    var userSecret := GenerateUserSecret(p, matricula, cpf, senha);
    var tree := Fold(p, Leaves(p, [matricula, cpf, IntToString(time)]));
    ZkRecord(matricula, Sha256Hex(p, userSecret), GenerateMerkleProof(p, tree, userSecret, time),
             Sha256Hex(p, userSecret + Bin2Hex(nonceBytes)), now, now + TOKEN_LIFETIME)
  }

  /**
   * The signer's own claim verifies for the whole 24 hours after issue, and
   * the check is over right after.
   */
  lemma OwnClaimVerifies(p: Primitives, matricula: string, cpf: string, senha: Option<string>, nonceBytes: string,
                         time: int, issued: int, now: int, other: nat)
    requires issued <= now
    ensures VerifyRecord(p, Some(NewZkRecord(p, matricula, cpf, senha, nonceBytes, time, issued)),
                         Some(Claim(Some(matricula), Some(cpf), senha, other)), now)
            <==> now <= issued + TOKEN_LIFETIME
  {
  }

  /**
   * When the claim's secret differs from the stored one and SHA-256 does not
   * collide on the two, the claim is refused.
   */
  lemma WrongClaimRefused(p: Primitives, rec: ZkRecord, stored: string, c: Claim, now: int)
    requires rec.dataHash == Sha256Hex(p, stored) && DigestBytes(p) && !c.IsEmpty()
    requires GenerateUserSecret(p, c.matricula.GetOr(""), c.cpf.GetOr(""), c.senha) != stored
    requires CollisionFree(p, GenerateUserSecret(p, c.matricula.GetOr(""), c.cpf.GetOr(""), c.senha), stored)
    ensures !VerifyRecord(p, Some(rec), Some(c), now)
  {
    Sha256HexInjective(p, GenerateUserSecret(p, c.matricula.GetOr(""), c.cpf.GetOr(""), c.senha), stored);
  }

  /** With no claim, or an empty one, any unexpired token passes. */
  lemma EmptyClaimAcceptsAnyToken(p: Primitives, rec: ZkRecord, claim: Option<Claim>, now: int)
    requires claim.None? || claim.value.IsEmpty()
    ensures VerifyRecord(p, Some(rec), claim, now) <==> now <= rec.expiresAt
  {
  }

  /** The acl_zero_knowledge table, keyed by its unique token. */
  class ZkStore {
    var rows: map<string, ZkRecord>

    constructor()
      ensures rows == map[]
    {
      rows := map[];
    }

    /**
     * createUserProof: one row under a fresh 'zk_' token holding hashes of
     * the secret only; a token already present violates the unique key and
     * nothing is stored.
     */
    method CreateUserProof(p: Primitives, matricula: string, cpf: string, senha: Option<string>,
                           nonceBytes: string, tokenBytes: string, challengeBytes: string, time: int, now: int)
      returns (r: Result<UserProof>)
      requires |nonceBytes| == 32 && |tokenBytes| == 16
      modifies this
      ensures r.Ok? <==> ZkToken(tokenBytes) !in old(rows)
      ensures r.Ok? ==> (r.value.zkToken == ZkToken(tokenBytes) && r.value.proofRequired
        && rows == old(rows)[r.value.zkToken := NewZkRecord(p, matricula, cpf, senha, nonceBytes, time, now)])
      ensures r.Err? ==> rows == old(rows)
    {
      var userSecret := GenerateUserSecret(p, matricula, cpf, senha);
      var commitment := Sha256Hex(p, userSecret + Bin2Hex(nonceBytes));
      var merkleTree := BuildMerkleTree(p, [matricula, cpf, IntToString(time)]);
      var merkleProof := GenerateMerkleProof(p, merkleTree, userSecret, time);
      var zkToken := ZkToken(tokenBytes);
      if zkToken in rows {
        return Err("Duplicate entry for key 'acl_zero_knowledge_token_unique'");
      }
      rows := rows[zkToken := ZkRecord(matricula, Sha256Hex(p, userSecret), merkleProof, commitment, now,
                                       now + TOKEN_LIFETIME)];
      var challenge := Sha256Hex(p, commitment + IntToString(time) + challengeBytes);
      return Ok(UserProof(zkToken, challenge, true));
    }

    /** verifyProof */
    function VerifyProof(p: Primitives, zkToken: string, claim: Option<Claim>, now: int): (ok: bool)
      reads this
      ensures ok ==> zkToken in rows && now <= rows[zkToken].expiresAt
      ensures ok == VerifyRecord(p, if zkToken in rows then Some(rows[zkToken]) else None, claim, now)
    {
      VerifyRecord(p, if zkToken in rows then Some(rows[zkToken]) else None, claim, now)
    }
  }
}
