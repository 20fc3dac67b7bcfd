/** `ValidateVoteExtensions`: the checks on an extended commit and what its acceptance guarantees. */
module VoteExtensions {
  import opened Prelude

  const TWO63: int := 0x8000_0000_0000_0000

  /** Two's complement wrap-around of a 64-bit signed result. */
  function Wrap(x: int): int { (x + TWO63) % (2 * TWO63) - TWO63 }

  /** Division truncated towards zero. */
  function Quot(x: int, d: int): int
    requires d > 0
  {
    if x >= 0 then x / d else -((-x) / d)
  }

  datatype Flag = Absent | ForBlock | ForNil
  datatype Vote = Vote(address: string, power: int, flag: Flag, extension: string, signature: string)
  datatype Validator = Validator(address: string, power: int)
  datatype ExtendedCommit = ExtendedCommit(round: int, votes: seq<Vote>)
  datatype LastCommit = LastCommit(round: int, validators: seq<Validator>)

  /** What a validator signs for its extension. */
  datatype SignDoc = SignDoc(extension: string, height: int, round: int, chainId: string)

  /** The block context: the current height, the parameter that enables extensions (absent or 0 is off), and
      the validator store's keys together with their signature check. */
  datatype Context = Context(
    height: int, chainId: string, enableHeight: Option<int>,
    hasKey: string -> bool, verify: (string, SignDoc, string) -> bool)

  predicate ExtensionsEnabled(c: Context) {
    c.enableHeight.Some? && c.height > c.enableHeight.value && c.enableHeight.value != 0
  }

  /** `bytes.Compare`. */
  function Compare(a: string, b: string): int {
    if a == [] then (if b == [] then 0 else -1)
    else if b == [] then 1
    else if a[0] != b[0] then (if a[0] < b[0] then -1 else 1)
    else Compare(a[1..], b[1..])
  }

  function Order(x: Vote, y: Vote): int {
    if x.power == y.power then Compare(x.address, y.address) else Wrap(-Wrap(x.power - y.power))
  }

  /** The extended commit is the last commit's validator list, in the prescribed order, without repeats. */
  ghost predicate Consistent(ec: ExtendedCommit, lc: LastCommit) {
    && ec.round == lc.round && |ec.votes| == |lc.validators|
    && (forall i :: 0 < i < |ec.votes| ==> Order(ec.votes[i], ec.votes[i - 1]) >= 0)
    && (forall i, j :: 0 <= i < j < |ec.votes| ==> ec.votes[i].address != ec.votes[j].address)
    && (forall i :: 0 <= i < |ec.votes| ==> Validator(ec.votes[i].address, ec.votes[i].power) == lc.validators[i])
  }

  method ValidateAgainstLastCommit(ec: ExtendedCommit, lc: LastCommit) returns (ok: bool)
    ensures ok <==> Consistent(ec, lc)
  {
    if ec.round != lc.round || |ec.votes| != |lc.validators| { return false; }
    var n := |ec.votes|;
    for i := 0 to n
      invariant forall k :: 0 < k < i ==> Order(ec.votes[k], ec.votes[k - 1]) >= 0
    {
      if i > 0 && Order(ec.votes[i], ec.votes[i - 1]) < 0 { return false; }
    }
    var addressCache: set<string> := {};
    for i := 0 to n
      invariant addressCache == set k | 0 <= k < i :: ec.votes[k].address
      invariant forall k, m :: 0 <= k < m < i ==> ec.votes[k].address != ec.votes[m].address
      invariant forall k :: 0 <= k < i ==> Validator(ec.votes[k].address, ec.votes[k].power) == lc.validators[k]
    {
      var vote := ec.votes[i];
      if vote.address in addressCache { return false; }
      addressCache := addressCache + {vote.address};
      if vote.address != lc.validators[i].address || vote.power != lc.validators[i].power { return false; }
    }
    ok := true;
  }

  /** The extension of a commit vote is signed by its validator, for the previous height. */
  predicate Signed(c: Context, round: int, v: Vote) {
    v.signature != "" && c.hasKey(v.address)
    && c.verify(v.address, SignDoc(v.extension, c.height - 1, round, c.chainId), v.signature)
  }

  /** Commit votes carry a valid extension when extensions are on, and none when they are off. */
  predicate VoteFine(c: Context, round: int, v: Vote) {
    v.flag != ForBlock ||
    (if ExtensionsEnabled(c) then Signed(c, round, v) else v.extension == "" && v.signature == "")
  }

  /** The vote's power counts towards the quorum. */
  predicate Counts(c: Context, v: Vote) {
    v.flag == ForBlock && ExtensionsEnabled(c)
  }

  function TotalVP(votes: seq<Vote>): int {
    if votes == [] then 0 else Wrap(TotalVP(votes[..|votes| - 1]) + votes[|votes| - 1].power)
  }

  function SumVP(c: Context, votes: seq<Vote>): int {
    if votes == [] then 0
    else if Counts(c, votes[|votes| - 1]) then Wrap(SumVP(c, votes[..|votes| - 1]) + votes[|votes| - 1].power)
    else SumVP(c, votes[..|votes| - 1])
  }

  function RequiredVP(total: int): int {
    Wrap(Quot(Wrap(total * 2), 3) + 1)
  }

  ghost predicate AllFine(c: Context, ec: ExtendedCommit) {
    forall v :: v in ec.votes ==> VoteFine(c, ec.round, v)
  }

  ghost predicate Accepted(c: Context, ec: ExtendedCommit, lc: LastCommit) {
    && Consistent(ec, lc) && AllFine(c, ec)
    && TotalVP(ec.votes) > 0 && SumVP(c, ec.votes) >= RequiredVP(TotalVP(ec.votes))
  }

  method ValidateVoteExtensions(c: Context, ec: ExtendedCommit, lc: LastCommit) returns (ok: bool)
    ensures ok <==> Accepted(c, ec, lc)
  {
    hide Wrap, Quot, Consistent;
    var consistent := ValidateAgainstLastCommit(ec, lc);
    if !consistent { return false; }
    var extsEnabled := c.enableHeight.Some? && c.height > c.enableHeight.value && c.enableHeight.value != 0;
    var totalVP, sumVP := 0, 0;
    for i := 0 to |ec.votes|
      invariant totalVP == TotalVP(ec.votes[..i]) && sumVP == SumVP(c, ec.votes[..i])
      invariant forall k :: 0 <= k < i ==> VoteFine(c, ec.round, ec.votes[k])
    {
      var vote := ec.votes[i];
      assert vote in ec.votes && ec.votes[..i + 1][..i] == ec.votes[..i];
      totalVP := Wrap(totalVP + vote.power);
      if vote.flag != ForBlock { continue; }
      if !extsEnabled {
        if vote.extension != "" || vote.signature != "" { return false; }
        continue;
      }
      if vote.signature == "" || !c.hasKey(vote.address) { return false; }
      if !c.verify(vote.address, SignDoc(vote.extension, c.height - 1, ec.round, c.chainId), vote.signature) { return false; }
      sumVP := Wrap(sumVP + vote.power);
    }
    assert ec.votes[..|ec.votes|] == ec.votes;
    if totalVP <= 0 { return false; }
    ok := sumVP >= Wrap(Quot(Wrap(totalVP * 2), 3) + 1);
  }

  // ---------- what acceptance means ----------

  /** Extensions are on from the height after the enabling one, if that is set and not 0. */
  predicate On(c: Context) { c.enableHeight.Some? && c.enableHeight.value != 0 && c.height >= c.enableHeight.value + 1 }

  /** Exactly which votes are fine, and which count: when extensions are on, a commit vote with a signature of a known
      validator over its extension, the previous height, the commit's round and the chain is fine and counts; when they
      are off, a commit vote with neither extension nor signature is fine and none counts; others are fine and do not. */
  lemma {:induction false} FineExactlyWhenSigned(c: Context, ec: ExtendedCommit)
    ensures AllFine(c, ec) <==> forall v :: v in ec.votes && v.flag == ForBlock ==>
      if On(c)
      then v.signature != "" && c.hasKey(v.address)
           && c.verify(v.address, SignDoc(v.extension, c.height - 1, ec.round, c.chainId), v.signature)
      else v.extension == "" && v.signature == ""
    ensures Counted(c, ec.votes) == if On(c) then (set i: nat | i < |ec.votes| && ec.votes[i].flag == ForBlock) else {}
  {
  }

  /** `a` comes before `b` byte by byte: at the first difference, or because it ends there. */
  ghost predicate LexBefore(a: string, b: string) {
    exists n :: 0 <= n <= |a| && n < |b| && a[..n] == b[..n] && (n == |a| || a[n] < b[n])
  }

  lemma {:induction false} CompareIsLex(a: string, b: string)
    ensures Compare(a, b) == 0 <==> a == b
    ensures Compare(a, b) < 0 <==> LexBefore(a, b)
  {
    if a == [] && b != [] {
      assert a[..0] == b[..0];
    } else if a != [] && b != [] {
      CompareIsLex(a[1..], b[1..]);
      assert a == [a[0]] + a[1..] && b == [b[0]] + b[1..];
      if a[0] == b[0] {
        LexTail(a, b);
      } else if a[0] < b[0] {
        assert a[..0] == b[..0];
      }
    }
  }

  lemma {:induction false} LexTail(a: string, b: string)
    requires a != [] && b != [] && a[0] == b[0]
    ensures LexBefore(a, b) <==> LexBefore(a[1..], b[1..])
  {
    if n :| 0 <= n <= |a[1..]| && n < |b[1..]| && a[1..][..n] == b[1..][..n] && (n == |a[1..]| || a[1..][n] < b[1..][n]) {
      assert a[..n + 1] == [a[0]] + a[1..][..n] && b[..n + 1] == [b[0]] + b[1..][..n];
      assert LexBefore(a, b);
    }
    if n :| 0 <= n <= |a| && n < |b| && a[..n] == b[..n] && (n == |a| || a[n] < b[n]) {
      assert n > 0 && a[1..][..n - 1] == a[..n][1..] && b[1..][..n - 1] == b[..n][1..];
      assert LexBefore(a[1..], b[1..]);
    }
  }

  /** The prescribed order: higher power first, and among equal powers no address before the one in front of it. */
  lemma {:induction false} OrderExactly(x: Vote, y: Vote)
    requires 0 <= x.power < 0x8000_0000_0000_0000 && 0 <= y.power < 0x8000_0000_0000_0000
    ensures Order(y, x) >= 0 <==> y.power < x.power || (y.power == x.power && !LexBefore(y.address, x.address))
  {
    CompareIsLex(y.address, x.address);
  }

  /** The true power of the votes at the indices in `who`. */
  function Power(votes: seq<Vote>, who: set<nat>): int {
    if votes == [] then 0
    else Power(votes[..|votes| - 1], who) + if |votes| - 1 in who then votes[|votes| - 1].power else 0
  }

  /** The true total power. */
  function FullPower(votes: seq<Vote>): int {
    if votes == [] then 0 else FullPower(votes[..|votes| - 1]) + votes[|votes| - 1].power
  }

  function Counted(c: Context, votes: seq<Vote>): set<nat> { set i: nat | i < |votes| && Counts(c, votes[i]) }

  predicate NonNegative(votes: seq<Vote>) { forall v :: v in votes ==> v.power >= 0 }

  lemma {:induction false} PowerIsPart(votes: seq<Vote>, a: set<nat>)
    requires NonNegative(votes)
    ensures 0 <= Power(votes, a) <= FullPower(votes)
  {
    if votes != [] {
      var init := votes[..|votes| - 1];
      assert forall v :: v in init ==> v in votes;
      assert votes[|votes| - 1] in votes;
      PowerIsPart(init, a);
    }
  }

  /** Only membership of real indices matters. */
  lemma {:induction false} PowerDepends(votes: seq<Vote>, a: set<nat>, b: set<nat>)
    requires forall i: nat :: i < |votes| ==> (i in a <==> i in b)
    ensures Power(votes, a) == Power(votes, b)
  {
    if votes != [] { PowerDepends(votes[..|votes| - 1], a, b); }
  }

  lemma {:induction false} NoWrap(x: int)
    requires -TWO63 <= x < TWO63
    ensures Wrap(x) == x
  {
  }

  /** While nothing overflows, the counters are the true powers. */
  lemma {:induction false} CountersAreTrue(c: Context, votes: seq<Vote>)
    requires NonNegative(votes) && FullPower(votes) < TWO63
    ensures TotalVP(votes) == FullPower(votes) && SumVP(c, votes) == Power(votes, Counted(c, votes))
  {
    if votes != [] {
      var init, last := votes[..|votes| - 1], votes[|votes| - 1];
      assert forall v :: v in init ==> v in votes;
      assert last in votes;
      PowerDepends(init, Counted(c, init), Counted(c, votes));
      PowerIsPart(init, Counted(c, init));
      CountersAreTrue(c, init);
      NoWrap(FullPower(votes));
      NoWrap(Power(init, Counted(c, init)) + last.power);
    }
  }

  lemma {:induction false} RequiredIsTwoThirds(total: int, sum: int)
    requires 0 <= 2 * total < TWO63
    ensures sum >= RequiredVP(total) <==> 3 * sum > 2 * total
  {
    NoWrap(total * 2);
    NoWrap(total * 2 / 3 + 1);
  }

  lemma {:induction false} RequiredVanishes(total: int)
    requires TWO63 <= 2 * total && total < TWO63
    ensures total < TWO63 - 1 ==> RequiredVP(total) <= 0
    ensures total == TWO63 - 1 ==> RequiredVP(total) == 1
  {
    assert Wrap(total * 2) == total * 2 - 2 * TWO63;
    NoWrap(Quot(Wrap(total * 2), 3) + 1);
  }

  /** With non-negative powers and a total below 2^62 (twice it fits in 63 bits), a commit is accepted exactly
      when it matches the last commit, every commit vote is fine, and strictly more than two thirds of the
      true total power comes with a verified extension. With extensions off nothing is accepted. */
  lemma {:induction false} AcceptedIffTwoThirds(c: Context, ec: ExtendedCommit, lc: LastCommit)
    requires NonNegative(ec.votes) && 2 * FullPower(ec.votes) < TWO63
    ensures Accepted(c, ec, lc) <==>
      && Consistent(ec, lc) && AllFine(c, ec)
      && 3 * Power(ec.votes, Counted(c, ec.votes)) > 2 * FullPower(ec.votes)
    ensures Accepted(c, ec, lc) ==>
      && ExtensionsEnabled(c)
      && forall i :: i in Counted(c, ec.votes) ==> Signed(c, ec.round, ec.votes[i])
  {
    hide Consistent, RequiredVP, TotalVP, SumVP, Power, FullPower, Signed;
    forall i | i in Counted(c, ec.votes) && AllFine(c, ec) ensures Signed(c, ec.round, ec.votes[i]) {
      assert ec.votes[i] in ec.votes;
    }
    CountersAreTrue(c, ec.votes);
    PowerIsPart(ec.votes, Counted(c, ec.votes));
    RequiredIsTwoThirds(FullPower(ec.votes), Power(ec.votes, Counted(c, ec.votes)));
    if !ExtensionsEnabled(c) {
      PowerDepends(ec.votes, Counted(c, ec.votes), {});
      NoPower(ec.votes);
    }
  }

  lemma {:induction false} NoPower(votes: seq<Vote>)
    ensures Power(votes, {}) == 0
  {
    if votes != [] { NoPower(votes[..|votes| - 1]); }
  }

  /** The bound is the exact one: with any larger total that fits in an int64 doubling overflows, and the
      required power is not positive (or 1, for the largest total of all), so that next to no verified
      extension is needed. */
  lemma {:induction false} BeyondTheBoundPowerIsNotChecked(c: Context, ec: ExtendedCommit, lc: LastCommit)
    requires NonNegative(ec.votes) && TWO63 <= 2 * FullPower(ec.votes) && FullPower(ec.votes) < TWO63
    ensures Accepted(c, ec, lc) <==>
      && Consistent(ec, lc) && AllFine(c, ec)
      && (FullPower(ec.votes) == TWO63 - 1 ==> Power(ec.votes, Counted(c, ec.votes)) >= 1)
  {
    CountersAreTrue(c, ec.votes);
    PowerIsPart(ec.votes, Counted(c, ec.votes));
    RequiredVanishes(FullPower(ec.votes));
  }

  /** Such an input: one validator of power 2^62 that did not even vote. Its commit is accepted, in every
      context, with no verified power at all. */
  lemma {:induction false} AbsentValidatorIsEnough(c: Context)
    ensures var power := 0x4000_0000_0000_0000;
      var ec := ExtendedCommit(0, [Vote("v", power, Absent, "", "")]); var lc := LastCommit(0, [Validator("v", power)]);
      Accepted(c, ec, lc) && Power(ec.votes, Counted(c, ec.votes)) == 0 && FullPower(ec.votes) == power
  {
    hide Wrap, Quot;
    var power := 0x4000_0000_0000_0000;
    var vote := Vote("v", power, Absent, "", "");
    var ec, lc := ExtendedCommit(0, [vote]), LastCommit(0, [Validator("v", power)]);
    assert [vote][..0] == [];
    assert FullPower([]) == 0 && FullPower([vote]) == power;
    assert Power([], Counted(c, [vote])) == 0 && Power([vote], Counted(c, [vote])) == 0;
    assert NonNegative([vote]) && Consistent(ec, lc) && AllFine(c, ec);
    BeyondTheBoundPowerIsNotChecked(c, ec, lc);
  }

  /** Inclusion and exclusion, vote by vote. */
  lemma {:induction false} BothAndEither(votes: seq<Vote>, a: set<nat>, b: set<nat>)
    ensures Power(votes, a) + Power(votes, b) == Power(votes, a + b) + Power(votes, a * b)
  {
    if votes != [] { BothAndEither(votes[..|votes| - 1], a, b); }
  }

  lemma {:induction false} PowerOfSameList(v1: seq<Vote>, v2: seq<Vote>, who: set<nat>)
    requires |v1| == |v2| && forall i :: 0 <= i < |v1| ==> v1[i].power == v2[i].power
    ensures Power(v1, who) == Power(v2, who)
  {
    if v1 != [] { PowerOfSameList(v1[..|v1| - 1], v2[..|v2| - 1], who); }
  }

  lemma {:induction false} SameFullPower(v1: seq<Vote>, v2: seq<Vote>)
    requires |v1| == |v2| && forall i :: 0 <= i < |v1| ==> v1[i].power == v2[i].power
    ensures FullPower(v1) == FullPower(v2)
  {
    if v1 != [] { SameFullPower(v1[..|v1| - 1], v2[..|v2| - 1]); }
  }

  /** Quorum intersection: two commits accepted against the same last commit share validators, all with
      verified extensions in both, that hold more than a third of the total power. */
  lemma {:induction false} AcceptedCommitsOverlap(c1: Context, c2: Context, e1: ExtendedCommit, e2: ExtendedCommit, lc: LastCommit)
    requires NonNegative(e1.votes) && 2 * FullPower(e1.votes) < TWO63
    ensures Accepted(c1, e1, lc) && Accepted(c2, e2, lc) ==>
      var both := Counted(c1, e1.votes) * Counted(c2, e2.votes);
      && 3 * Power(e1.votes, both) > FullPower(e1.votes)
      && (forall i :: i in both ==>
            (i < |lc.validators| && e1.votes[i].address == lc.validators[i].address == e2.votes[i].address
             && Signed(c1, e1.round, e1.votes[i]) && Signed(c2, e2.round, e2.votes[i])))
  {
    if Accepted(c1, e1, lc) && Accepted(c2, e2, lc) {
      forall i: nat | i < |e1.votes| ensures e1.votes[i].power == e2.votes[i].power && e1.votes[i].address == e2.votes[i].address
      {
        assert Validator(e1.votes[i].address, e1.votes[i].power) == lc.validators[i] == Validator(e2.votes[i].address, e2.votes[i].power);
      }
      forall v | v in e2.votes ensures v.power >= 0
      {
        var i :| 0 <= i < |e2.votes| && e2.votes[i] == v;
        assert e1.votes[i] in e1.votes;
      }
      var a, b := Counted(c1, e1.votes), Counted(c2, e2.votes);
      SameFullPower(e1.votes, e2.votes);
      PowerOfSameList(e1.votes, e2.votes, b);
      AcceptedIffTwoThirds(c1, e1, lc);
      AcceptedIffTwoThirds(c2, e2, lc);
      BothAndEither(e1.votes, a, b);
      PowerIsPart(e1.votes, a + b);
    }
  }
}
