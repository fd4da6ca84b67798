/** Reading one instruction: `processInstruction`, `findUserAccount` and `findAccount` of
    internal/solana/txParser.go. */
module Instructions {
  import opened Domain
  import opened Validation
  import opened Transactions

  /** How many accounts the code reads without looking at the length of the list. */
  function Reads(ix: Instruction, keys: seq<Address>, d: Decoders): nat
    requires 0 <= ix.program < |keys|
  {
    match keys[ix.program]
    case SystemProgram => (if d.system(ix.data).kind.OtherSystem? then 0 else 2)
    case TokenProgram =>
      (match d.token(ix.data).kind
       case InitializeMint | InitializeMint2 => 1
       case TransferChecked => 4
       case PlainTransfer | MintTo | Burn | InitializeAccount | CloseAccount => 3
       case InitializeAccount2 | InitializeAccount3 => 2
       case OtherToken => 0)
    case _ => 0
  }

  /** No index is negative, and an instruction whose indices all resolve names enough accounts. */
  predicate Complete(ix: Instruction, keys: seq<Address>, d: Decoders) {
    && 0 <= ix.program && (forall a <- ix.accounts :: 0 <= a)
    && (Resolves(ix, keys) ==> |ix.accounts| >= Reads(ix, keys, d))
  }

  predicate Resolves(ix: Instruction, keys: seq<Address>) {
    0 <= ix.program < |keys| && InBounds(ix.accounts, keys)
  }

  ghost predicate Decodable(tx: Tx, d: Decoders) {
    forall s :: IsSpot(tx, s) ==> Complete(At(tx, s), AllAccountKeys(tx), d)
  }

  /** The last position of every key. */
  function KeyMap(keys: seq<Address>): map<Address, nat> {
    if keys == [] then map[] else KeyMap(keys[..|keys| - 1])[keys[|keys| - 1] := |keys| - 1]
  }

  /** The position at which a key stands last. */
  predicate IsLastAt(keys: seq<Address>, k: int, a: Address) {
    0 <= k < |keys| && keys[k] == a && forall j :: k < j < |keys| ==> keys[j] != a
  }

  lemma {:induction false} KeyMapIsLast(keys: seq<Address>, a: Address)
    ensures a in KeyMap(keys) <==> a in keys
    ensures a in KeyMap(keys) ==> IsLastAt(keys, KeyMap(keys)[a], a)
    decreases |keys|
  {
    if keys != [] {
      var n := |keys| - 1;
      KeyMapIsLast(keys[..n], a);
      assert keys == keys[..n] + [keys[n]];
      if keys[n] != a && a in KeyMap(keys[..n]) {
        LastStays(keys, KeyMap(keys[..n])[a], a);
      }
    }
  }

  lemma LastStays(keys: seq<Address>, k: int, a: Address)
    requires keys != [] && keys[|keys| - 1] != a && IsLastAt(keys[..|keys| - 1], k, a)
    ensures IsLastAt(keys, k, a)
  {
    forall j | k < j < |keys| ensures keys[j] != a {
      assert j < |keys| - 1 ==> keys[..|keys| - 1][j] == keys[j];
    }
  }

  method BuildKeyMap(accountKeys: seq<Address>) returns (m: map<Address, nat>)
    ensures m == KeyMap(accountKeys)
  {
    m := map[];
    var i := 0;
    while i < |accountKeys|
      invariant 0 <= i <= |accountKeys| && m == KeyMap(accountKeys[..i])
    {
      assert accountKeys[..i + 1][..i] == accountKeys[..i];
      m := m[accountKeys[i] := i];
      i := i + 1;
    }
    assert accountKeys[..|accountKeys|] == accountKeys;
  }

  /** The last recorded balance of every account. */
  function Holdings(balances: seq<Balance>): map<int, Balance> {
    if balances == [] then map[] else
    var last := balances[|balances| - 1];
    Holdings(balances[..|balances| - 1])[last.accountIndex := last]
  }

  lemma {:induction false} HoldingIsLast(balances: seq<Balance>, account: int)
    ensures account in Holdings(balances) <==> exists b <- balances :: b.accountIndex == account
    ensures account in Holdings(balances) ==>
              exists k :: 0 <= k < |balances| && Holdings(balances)[account] == balances[k] &&
                          balances[k].accountIndex == account &&
                          forall j :: k < j < |balances| ==> balances[j].accountIndex != account
    decreases |balances|
  {
    if balances != [] {
      var n := |balances| - 1;
      assert balances == balances[..n] + [balances[n]];
      HoldingIsLast(balances[..n], account);
      assert forall j :: 0 <= j < n ==> balances[..n][j] == balances[j];
    }
  }

  /** One earlier balance is subtracted where both amounts parse; an account that has no later
      balance does not appear. */
  function Less(m: map<int, Balance>, pre: Balance): map<int, Balance> {
    if pre.accountIndex in m && m[pre.accountIndex].amount.Some? && pre.amount.Some? then
      var b := m[pre.accountIndex];
      m[pre.accountIndex := b.(amount := Some(b.amount.value - pre.amount.value))]
    else m
  }

  function Diffs(m: map<int, Balance>, pres: seq<Balance>): map<int, Balance> {
    if pres == [] then m else Less(Diffs(m, pres[..|pres| - 1]), pres[|pres| - 1])
  }

  function BalanceDiffs(tx: Tx): map<int, Balance> {
    Diffs(Holdings(tx.postTokens), tx.preTokens)
  }

  method GetTokenBalanceDiffs(tx: Tx) returns (m: map<int, Balance>)
    ensures m == BalanceDiffs(tx)
  {
    m := map[];
    var i := 0;
    while i < |tx.postTokens|
      invariant 0 <= i <= |tx.postTokens| && m == Holdings(tx.postTokens[..i])
    {
      assert tx.postTokens[..i + 1][..i] == tx.postTokens[..i];
      m := m[tx.postTokens[i].accountIndex := tx.postTokens[i]];
      i := i + 1;
    }
    assert tx.postTokens[..|tx.postTokens|] == tx.postTokens;
    ghost var posts := m;
    i := 0;
    while i < |tx.preTokens|
      invariant 0 <= i <= |tx.preTokens| && m == Diffs(posts, tx.preTokens[..i])
    {
      var pre := tx.preTokens[i];
      assert tx.preTokens[..i + 1][..i] == tx.preTokens[..i];
      if pre.accountIndex in m {
        var swap := m[pre.accountIndex];
        if swap.amount.Some? && pre.amount.Some? {
          m := m[pre.accountIndex := swap.(amount := Some(swap.amount.value - pre.amount.value))];
        }
      }
      i := i + 1;
    }
    assert tx.preTokens[..|tx.preTokens|] == tx.preTokens;
  }

  /** What an account held before, as far as it was recorded. */
  function HeldBefore(pres: seq<Balance>, account: int): real {
    if pres == [] then 0.0 else
    var last := pres[|pres| - 1];
    HeldBefore(pres[..|pres| - 1], account) +
    if last.accountIndex == account && last.amount.Some? then last.amount.value else 0.0
  }

  /** A difference has the mint, owner and decimals of the account's later balance, and its amount
      less what was held before. */
  lemma {:induction false} DiffIsChange(m: map<int, Balance>, pres: seq<Balance>, account: int)
    ensures account in Diffs(m, pres) <==> account in m
    ensures account in m ==>
              var d, b := Diffs(m, pres)[account], m[account];
              d == b.(amount := if b.amount.None? then None else Some(b.amount.value - HeldBefore(pres, account)))
    decreases |pres|
  {
    if pres != [] {
      DiffIsChange(m, pres[..|pres| - 1], account);
    }
  }

  /** The balance difference recorded for an account, if it names an owner. */
  function Held(tx: Tx, account: Address): Option<Balance> {
    var keys, diffs := KeyMap(AllAccountKeys(tx)), BalanceDiffs(tx);
    if account in keys && keys[account] in diffs && diffs[keys[account]].owner != NoAddress
    then Some(diffs[keys[account]]) else None
  }

  /** The balance that an owner is recorded with: the last one of the account's last position. */
  ghost predicate IsRecorded(tx: Tx, account: Address, b: Balance) {
    exists k, at :: IsLastAt(AllAccountKeys(tx), k, account) && IsLastBalance(tx.postTokens, at, k, b)
  }

  predicate IsLastBalance(balances: seq<Balance>, at: int, account: int, b: Balance) {
    && 0 <= at < |balances| && balances[at] == b && b.accountIndex == account
    && forall j :: at < j < |balances| ==> balances[j].accountIndex != account
  }

  /** A recorded holder is the owner that the later balances name for the account, with its mint and
      decimals. */
  lemma HeldIsRecorded(tx: Tx, account: Address)
    ensures Held(tx, account).Some? <==> exists b :: IsRecorded(tx, account, b) && b.owner != NoAddress
    ensures forall b :: IsRecorded(tx, account, b) && b.owner != NoAddress ==>
              Held(tx, account).Some? &&
              var h := Held(tx, account).value;
              h.owner == b.owner && h.mint == b.mint && h.decimals == b.decimals
  {
    var keys, posts := AllAccountKeys(tx), Holdings(tx.postTokens);
    KeyMapIsLast(keys, account);
    if account in keys {
      var k := KeyMap(keys)[account];
      HoldingIsLast(tx.postTokens, k);
      DiffIsChange(posts, tx.preTokens, k);
      if k in posts {
        var at :| 0 <= at < |tx.postTokens| && posts[k] == tx.postTokens[at] && tx.postTokens[at].accountIndex == k &&
                  forall j :: at < j < |tx.postTokens| ==> tx.postTokens[j].accountIndex != k;
        assert IsLastBalance(tx.postTokens, at, k, posts[k]);
        assert IsRecorded(tx, account, posts[k]);
      }
    }
    forall b | IsRecorded(tx, account, b)
      ensures account in KeyMap(keys) && KeyMap(keys)[account] in posts && posts[KeyMap(keys)[account]] == b
    {
      var k, at :| IsLastAt(keys, k, account) && IsLastBalance(tx.postTokens, at, k, b);
      RecordedIsHolding(tx, account, b, k, at);
    }
  }

  lemma RecordedIsHolding(tx: Tx, account: Address, b: Balance, k: int, at: int)
    requires IsLastAt(AllAccountKeys(tx), k, account) && IsLastBalance(tx.postTokens, at, k, b)
    ensures var keys, posts := AllAccountKeys(tx), Holdings(tx.postTokens);
            account in KeyMap(keys) && KeyMap(keys)[account] == k && k in posts && posts[k] == b
  {
    KeyMapIsLast(AllAccountKeys(tx), account);
    HoldingIsLast(tx.postTokens, k);
  }

  function FirstDecimals(balances: seq<Balance>, mint: Address): int {
    if balances == [] then -1
    else if balances[0].mint == mint then balances[0].decimals
    else FirstDecimals(balances[1..], mint)
  }

  function FindMintDecimals(tx: Tx, mint: Address): int {
    var post := FirstDecimals(tx.postTokens, mint);
    if exists b <- tx.postTokens :: b.mint == mint then post else FirstDecimals(tx.preTokens, mint)
  }

  lemma {:induction false} FirstDecimalsIsFirst(balances: seq<Balance>, mint: Address)
    ensures forall k :: IsFirstOfMint(balances, k, mint) ==> FirstDecimals(balances, mint) == balances[k].decimals
    ensures (forall b <- balances :: b.mint != mint) ==> FirstDecimals(balances, mint) == -1
  {
    if balances != [] && balances[0].mint != mint {
      FirstDecimalsIsFirst(balances[1..], mint);
      forall k | IsFirstOfMint(balances, k, mint) ensures FirstDecimals(balances, mint) == balances[k].decimals {
        assert IsFirstOfMint(balances[1..], k - 1, mint);
      }
    }
  }

  predicate IsFirstOfMint(balances: seq<Balance>, k: int, mint: Address) {
    0 <= k < |balances| && balances[k].mint == mint && forall j :: 0 <= j < k ==> balances[j].mint != mint
  }

  /** The decimals of a mint are those of its first balance, the later ones before the earlier ones. */
  lemma MintDecimalsAreFirst(tx: Tx, mint: Address)
    ensures var all := tx.postTokens + tx.preTokens;
            && (forall k :: IsFirstOfMint(all, k, mint) ==> FindMintDecimals(tx, mint) == all[k].decimals)
            && ((forall b <- all :: b.mint != mint) ==> FindMintDecimals(tx, mint) == -1)
  {
    var all := tx.postTokens + tx.preTokens;
    FirstDecimalsIsFirst(tx.postTokens, mint);
    FirstDecimalsIsFirst(tx.preTokens, mint);
    forall k | IsFirstOfMint(all, k, mint) ensures FindMintDecimals(tx, mint) == all[k].decimals {
      FirstOfEither(tx.postTokens, tx.preTokens, k, mint);
    }
    assert forall b <- tx.preTokens :: b in all;
  }

  lemma FirstOfEither(a: seq<Balance>, b: seq<Balance>, k: int, mint: Address)
    requires IsFirstOfMint(a + b, k, mint)
    ensures if k < |a| then IsFirstOfMint(a, k, mint) && a[k] in a
            else IsFirstOfMint(b, k - |a|, mint) && forall x <- a :: x.mint != mint
  {
    forall j | 0 <= j < k ensures (if j < |a| then a[j] else b[j - |a|]).mint != mint {
      assert (a + b)[j].mint != mint;
    }
    forall j | 0 <= j < k - |a| ensures b[j].mint != mint {
      assert (a + b)[|a| + j].mint != mint;
    }
  }

  // ---------- who owns a token account ----------

  datatype Clue = Clue(user: Address, mint: Address)

  /** What one instruction says about a token account. */
  function FindAccount(ix: Instruction, account: Address, keys: seq<Address>, d: Decoders): Option<Clue>
    requires Complete(ix, keys, d)
  {
    if !Resolves(ix, keys) then None else
    var named := i requires 0 <= i < |ix.accounts| => keys[ix.accounts[i]];
    match keys[ix.program]
    case AssociatedTokenProgram =>
      if |ix.accounts| == 6 then ClueFor(account, named(1), named(0), named(3))
      else ClueFor(account, NoAddress, NoAddress, NoAddress)
    case TokenProgram =>
      var data := d.token(ix.data);
      (match data.kind
       case InitializeAccount2 | InitializeAccount3 => ClueFor(account, named(0), data.owner, named(1))
       case InitializeAccount => ClueFor(account, named(0), named(2), named(1))
       case CloseAccount => ClueFor(account, named(0), named(2), NoAddress)
       case _ => ClueFor(account, NoAddress, NoAddress, NoAddress))
    case SystemProgram =>
      if d.system(ix.data).kind.CreateAccount? && named(1) == account then Some(Clue(named(0), NoAddress))
      else ClueFor(account, NoAddress, NoAddress, NoAddress)
    case _ => ClueFor(account, NoAddress, NoAddress, NoAddress)
  }

  function ClueFor(account: Address, found: Address, user: Address, mint: Address): Option<Clue> {
    if found == account then Some(Clue(user, mint)) else None
  }

  /** What an instruction says about an account that has a name, with the accounts it names by their
      positions: who owns it and what it holds. */
  lemma ClueOf(ix: Instruction, account: Address, keys: seq<Address>, d: Decoders)
    requires Complete(ix, keys, d) && Resolves(ix, keys) && account != NoAddress
    ensures var clue, data := FindAccount(ix, account, keys, d), d.token(ix.data);
            match keys[ix.program]
            case AssociatedTokenProgram =>
              && (clue.Some? <==> |ix.accounts| == 6 && keys[ix.accounts[1]] == account)
              && (clue.Some? ==> clue.value == Clue(keys[ix.accounts[0]], keys[ix.accounts[3]]))
            case SystemProgram =>
              && (clue.Some? <==> d.system(ix.data).kind.CreateAccount? && keys[ix.accounts[1]] == account)
              && (clue.Some? ==> clue.value == Clue(keys[ix.accounts[0]], NoAddress))
            case TokenProgram =>
              && (clue.Some? ==> keys[ix.accounts[0]] == account)
              && (match data.kind
                  case InitializeAccount =>
                    keys[ix.accounts[0]] == account ==> clue == Some(Clue(keys[ix.accounts[2]], keys[ix.accounts[1]]))
                  case InitializeAccount2 =>
                    keys[ix.accounts[0]] == account ==> clue == Some(Clue(data.owner, keys[ix.accounts[1]]))
                  case InitializeAccount3 =>
                    keys[ix.accounts[0]] == account ==> clue == Some(Clue(data.owner, keys[ix.accounts[1]]))
                  case CloseAccount =>
                    keys[ix.accounts[0]] == account ==> clue == Some(Clue(keys[ix.accounts[2]], NoAddress))
                  case _ => clue.None?)
            case _ => clue.None?
  {
  }

  function ClueAt(tx: Tx, d: Decoders, account: Address, s: Spot): Option<Clue>
    requires IsSpot(tx, s) && Complete(At(tx, s), AllAccountKeys(tx), d)
  {
    FindAccount(At(tx, s), account, AllAccountKeys(tx), d)
  }

  predicate AllSpots(tx: Tx, spots: seq<Spot>) {
    forall i :: 0 <= i < |spots| ==> IsSpot(tx, spots[i])
  }

  /** What the given instructions say about the account, in order. */
  function Clues(tx: Tx, d: Decoders, account: Address, spots: seq<Spot>): seq<Option<Clue>>
    requires Decodable(tx, d) && AllSpots(tx, spots)
  {
    seq(|spots|, i requires 0 <= i < |spots| => ClueAt(tx, d, account, spots[i]))
  }

  /** The user and the mint gathered so far, and whether any instruction spoke. */
  datatype Search = Search(user: Address, mint: Address, found: bool)

  function Note(search: Search, clue: Option<Clue>): Search {
    if clue.None? then search else
    Search(if search.user == NoAddress then clue.value.user else search.user,
           if search.mint == NoAddress then clue.value.mint else search.mint, true)
  }

  function Gather(clues: seq<Option<Clue>>): Search {
    if clues == [] then Search(NoAddress, NoAddress, false) else
    Note(Gather(clues[..|clues| - 1]), clues[|clues| - 1])
  }

  function UserOf(clue: Option<Clue>): Address {
    if clue.Some? then clue.value.user else NoAddress
  }

  function MintOf(clue: Option<Clue>): Address {
    if clue.Some? then clue.value.mint else NoAddress
  }

  /** `a` is the first non-empty one of the addresses. */
  predicate IsFirst(addresses: seq<Address>, a: Address) {
    if a == NoAddress then forall i :: 0 <= i < |addresses| ==> addresses[i] == NoAddress
    else exists i :: 0 <= i < |addresses| && addresses[i] == a && forall j :: 0 <= j < i ==> addresses[j] == NoAddress
  }

  function Users(clues: seq<Option<Clue>>): seq<Address> {
    seq(|clues|, i requires 0 <= i < |clues| => UserOf(clues[i]))
  }

  function Mints(clues: seq<Option<Clue>>): seq<Address> {
    seq(|clues|, i requires 0 <= i < |clues| => MintOf(clues[i]))
  }

  /** User and mint are each the first non-empty one in order of execution, possibly from different
      instructions, and the account is found iff some instruction names it. */
  lemma {:induction false} GatherFindsFirst(clues: seq<Option<Clue>>)
    ensures IsFirst(Users(clues), Gather(clues).user)
    ensures IsFirst(Mints(clues), Gather(clues).mint)
    ensures Gather(clues).found <==> exists clue <- clues :: clue.Some?
    decreases |clues|
  {
    if clues != [] {
      var n := |clues| - 1;
      GatherFindsFirst(clues[..n]);
      assert clues == clues[..n] + [clues[n]];
      FirstSnoc(Users(clues[..n]), Gather(clues[..n]).user, UserOf(clues[n]));
      FirstSnoc(Mints(clues[..n]), Gather(clues[..n]).mint, MintOf(clues[n]));
      assert Users(clues) == Users(clues[..n]) + [UserOf(clues[n])];
      assert Mints(clues) == Mints(clues[..n]) + [MintOf(clues[n])];
    }
  }

  lemma FirstSnoc(addresses: seq<Address>, a: Address, b: Address)
    requires IsFirst(addresses, a)
    ensures IsFirst(addresses + [b], if a == NoAddress then b else a)
  {
    var more := addresses + [b];
    if a == NoAddress {
      assert more[|addresses|] == b;
    } else {
      var i :| 0 <= i < |addresses| && addresses[i] == a && forall j :: 0 <= j < i ==> addresses[j] == NoAddress;
      assert more[i] == a;
    }
  }

  function UserAccount(tx: Tx, d: Decoders, account: Address): Option<TokenAccount>
    requires Decodable(tx, d)
  {
    SpotsFacts(tx, |tx.instructions|);
    var search := Gather(Clues(tx, d, account, Spots(tx)));
    if search.found then Some(TokenAccount(search.user, search.mint, FirstDecimals(tx.postTokens, search.mint)))
    else None
  }

  /** The account is known iff some instruction names it; its user and its mint are the first ones named, and
      its decimals those of the mint's first later balance. */
  lemma AccountIsFirst(tx: Tx, d: Decoders, account: Address)
    requires Decodable(tx, d)
    ensures AllSpots(tx, Spots(tx))
    ensures var clues, known := Clues(tx, d, account, Spots(tx)), UserAccount(tx, d, account);
            && (known.Some? <==> exists clue <- clues :: clue.Some?)
            && (known.Some? ==>
                  var TokenAccount(user, mint, decimals) := known.value;
                  && IsFirst(Users(clues), user) && IsFirst(Mints(clues), mint)
                  && (forall k :: IsFirstOfMint(tx.postTokens, k, mint) ==> decimals == tx.postTokens[k].decimals)
                  && ((forall b <- tx.postTokens :: b.mint != mint) ==> decimals == -1))
  {
    SpotsFacts(tx, |tx.instructions|);
    var clues := Clues(tx, d, account, Spots(tx));
    GatherFindsFirst(clues);
    FirstDecimalsIsFirst(tx.postTokens, Gather(clues).mint);
  }

  /** The search has seen exactly the given instructions. */
  ghost predicate Searched(tx: Tx, d: Decoders, account: Address, spots: seq<Spot>, search: Search) {
    Decodable(tx, d) && AllSpots(tx, spots) && search == Gather(Clues(tx, d, account, spots))
  }

  /** The nested loops of the search: outer instructions, then inner groups, then their instructions. */
  method FindUserAccount(tx: Tx, d: Decoders, account: Address) returns (r: Option<TokenAccount>)
    requires Decodable(tx, d)
    ensures r == UserAccount(tx, d, account)
  {
    var search := Search(NoAddress, NoAddress, false);
    var i := 0;
    while i < |tx.instructions|
      invariant 0 <= i <= |tx.instructions|
      invariant Searched(tx, d, account, SpotsBefore(tx, i), search)
    {
      ghost var before := SpotsBefore(tx, i);
      search := NoteAt(tx, d, account, before, Outer(i), search);
      search := SearchGroups(tx, d, account, before + [Outer(i)], i, search);
      i := i + 1;
    }
    if search.found {
      r := Some(TokenAccount(search.user, search.mint, FirstDecimals(tx.postTokens, search.mint)));
    } else {
      r := None;
    }
  }

  method SearchGroups(tx: Tx, d: Decoders, account: Address, ghost before: seq<Spot>, i: nat, sofar: Search)
    returns (search: Search)
    requires i < |tx.instructions| && Searched(tx, d, account, before, sofar)
    ensures Searched(tx, d, account, before + GroupSpots(tx, i, |tx.inner|), search)
  {
    search := sofar;
    var g := 0;
    assert before + GroupSpots(tx, i, 0) == before;
    while g < |tx.inner|
      invariant 0 <= g <= |tx.inner|
      invariant Searched(tx, d, account, before + GroupSpots(tx, i, g), search)
    {
      if tx.inner[g].index == i {
        search := SearchGroup(tx, d, account, before + GroupSpots(tx, i, g), i, g, search);
        Regroup(before, GroupSpots(tx, i, g), InnerSpots(i, g, |tx.inner[g].instructions|));
      }
      g := g + 1;
    }
  }

  method SearchGroup(tx: Tx, d: Decoders, account: Address, ghost before: seq<Spot>, i: nat, g: nat, sofar: Search)
    returns (search: Search)
    requires i < |tx.instructions| && g < |tx.inner| && tx.inner[g].index == i
    requires Searched(tx, d, account, before, sofar)
    ensures Searched(tx, d, account, before + InnerSpots(i, g, |tx.inner[g].instructions|), search)
  {
    search := sofar;
    var at := 0;
    assert before + InnerSpots(i, g, 0) == before;
    while at < |tx.inner[g].instructions|
      invariant 0 <= at <= |tx.inner[g].instructions|
      invariant Searched(tx, d, account, before + InnerSpots(i, g, at), search)
    {
      search := NoteAt(tx, d, account, before + InnerSpots(i, g, at), Inner(i, g, at), search);
      Regroup(before, InnerSpots(i, g, at), [Inner(i, g, at)]);
      at := at + 1;
    }
  }

  lemma Regroup<T>(a: seq<T>, b: seq<T>, c: seq<T>)
    ensures (a + b) + c == a + (b + c)
  {
  }

  method NoteAt(tx: Tx, d: Decoders, account: Address, ghost spots: seq<Spot>, s: Spot, search: Search)
    returns (next: Search)
    requires IsSpot(tx, s) && Searched(tx, d, account, spots, search)
    ensures Searched(tx, d, account, spots + [s], next)
  {
    next := Note(search, FindAccount(At(tx, s), account, AllAccountKeys(tx), d));
    ghost var clues := Clues(tx, d, account, spots + [s]);
    assert clues[..|spots|] == Clues(tx, d, account, spots);
  }

  // ---------- what an instruction moves ----------

  /** The accounts a token instruction names, before owners are known. */
  datatype Legs = Legs(source: Address, destination: Address, authority: Address, mint: Address,
                       decimals: int, kind: TransferKind)

  function TokenLegs(ix: Instruction, keys: seq<Address>, d: Decoders): Option<Legs>
    requires Complete(ix, keys, d) && Resolves(ix, keys) && keys[ix.program] == TokenProgram
  {
    var named := i requires 0 <= i < |ix.accounts| => keys[ix.accounts[i]];
    var data := d.token(ix.data);
    match data.kind
    case TransferChecked => Some(Legs(named(0), named(2), named(3), named(1), -1, TokenMove))
    case PlainTransfer => Some(Legs(named(0), named(1), named(2), NoAddress, data.decimals, TokenMove))
    case MintTo => Some(Legs(NoAddress, named(1), named(2), named(0), -1, MintMove))
    case Burn => Some(Legs(named(0), NoAddress, named(2), named(1), -1, BurnMove))
    case _ => None
  }

  /** Owner, mint and decimals as they become known. */
  datatype Party = Party(user: Address, mint: Address, decimals: int)

  /** What the search adds when no balance names an owner.  It sets the decimals even to unknown. */
  function FromSearch(tx: Tx, d: Decoders, account: Address, mint: Address, decimals: int): Party
    requires Decodable(tx, d)
  {
    var known := UserAccount(tx, d, account);
    if known.None? then Party(NoAddress, mint, decimals)
    else Party(known.value.user, if mint == NoAddress then known.value.mint else mint, known.value.decimals)
  }

  function SourceParty(tx: Tx, d: Decoders, legs: Legs): Party
    requires Decodable(tx, d)
  {
    var held := Held(tx, legs.source);
    if held.Some? then Party(held.value.owner, legs.mint, legs.decimals)
    else FromSearch(tx, d, legs.source, legs.mint, legs.decimals)
  }

  function DestinationParty(tx: Tx, d: Decoders, legs: Legs, source: Party): Party
    requires Decodable(tx, d)
  {
    var held := Held(tx, legs.destination);
    if held.Some? then
      Party(held.value.owner, if source.mint == NoAddress then held.value.mint else source.mint, held.value.decimals)
    else FromSearch(tx, d, legs.destination, source.mint, source.decimals)
  }

  function TokenTransfer(ix: Instruction, tx: Tx, d: Decoders, innerIndex: int, ixIndex: int): Processed
    requires Decodable(tx, d)
    requires var keys := AllAccountKeys(tx);
             Complete(ix, keys, d) && Resolves(ix, keys) && keys[ix.program] == TokenProgram
  {
    var keys, data := AllAccountKeys(tx), d.token(ix.data);
    if data.kind.InitializeMint? || data.kind.InitializeMint2? then
      MintCreated(keys[ix.accounts[0]], data.decimals)
    else
      var legs := TokenLegs(ix, keys, d);
      if legs.None? then Nothing else
      var source := SourceParty(tx, d, legs.value);
      var destination := DestinationParty(tx, d, legs.value, source);
      var decimals := if destination.decimals == -1 then FindMintDecimals(tx, destination.mint)
                      else destination.decimals;
      Moved(Transfer(innerIndex, ixIndex, destination.user, legs.value.destination, source.user, legs.value.source,
                     legs.value.authority, destination.mint, decimals, Some(Scaled(data.amount, decimals)),
                     legs.value.kind, NoAddress, [], ""))
  }

  function NativeTransfer(ix: Instruction, keys: seq<Address>, d: Decoders, innerIndex: int, ixIndex: int): Processed
    requires Complete(ix, keys, d) && 0 <= ix.program < |keys| && keys[ix.program] == SystemProgram
  {
    var data := d.system(ix.data);
    if !data.kind.SystemTransfer? || !InBounds(ix.accounts, keys) then Nothing else
    var source, destination := keys[ix.accounts[0]], keys[ix.accounts[1]];
    if source == NoAddress || destination == NoAddress then Nothing else
    Moved(Transfer(innerIndex, ixIndex, destination, NoAddress, source, NoAddress, NoAddress, Sol, 0,
                   Some(Scaled(data.lamports, 9)), NativeMove, NoAddress, [], ""))
  }

  /** The owner of a token account: its recorded holder, else the user the search finds. */
  function OwnerOf(tx: Tx, d: Decoders, account: Address): Address
    requires Decodable(tx, d)
  {
    if Held(tx, account).Some? then Held(tx, account).value.owner
    else if UserAccount(tx, d, account).Some? then UserAccount(tx, d, account).value.user
    else NoAddress
  }

  /** The mint of a token account as the search finds it. */
  function SearchedMint(tx: Tx, d: Decoders, account: Address): Address
    requires Decodable(tx, d)
  {
    if Held(tx, account).None? && UserAccount(tx, d, account).Some? then UserAccount(tx, d, account).value.mint
    else NoAddress
  }

  /** The mint of a token account: that of its recorded balance, else the one the search finds. */
  function HeldMint(tx: Tx, d: Decoders, account: Address): Address
    requires Decodable(tx, d)
  {
    if Held(tx, account).Some? then Held(tx, account).value.mint else SearchedMint(tx, d, account)
  }

  /** The last of the decimals that is set: the instruction's, the source's, the destination's.  A
      recorded source does not set them, a searched account does even when they are unknown. */
  function KnownDecimals(tx: Tx, d: Decoders, given: int, source: Address, destination: Address): int
    requires Decodable(tx, d)
  {
    if Held(tx, destination).Some? then Held(tx, destination).value.decimals
    else if UserAccount(tx, d, destination).Some? then UserAccount(tx, d, destination).value.decimals
    else if Held(tx, source).None? && UserAccount(tx, d, source).Some? then UserAccount(tx, d, source).value.decimals
    else given
  }

  /** What a token transfer carries besides its accounts: their owners, the mint and decimals that are
      known, and the instruction's amount in these decimals. */
  predicate Carries(t: Transfer, tx: Tx, d: Decoders, named: Address, given: int, amount: nat)
    requires Decodable(tx, d)
  {
    && t.fromUser == OwnerOf(tx, d, t.fromAccount) && t.toUser == OwnerOf(tx, d, t.toAccount)
    && IsFirst([named, SearchedMint(tx, d, t.fromAccount), HeldMint(tx, d, t.toAccount)], t.mint)
    && var known := KnownDecimals(tx, d, given, t.fromAccount, t.toAccount);
       && t.decimals == (if known == -1 then FindMintDecimals(tx, t.mint) else known)
       && t.amount == Some(Scaled(amount, t.decimals))
  }

  lemma OwnersOfLegs(tx: Tx, d: Decoders, legs: Legs)
    requires Decodable(tx, d)
    ensures var source := SourceParty(tx, d, legs);
            source.user == OwnerOf(tx, d, legs.source) &&
            DestinationParty(tx, d, legs, source).user == OwnerOf(tx, d, legs.destination)
  {
  }

  lemma SourceMint(tx: Tx, d: Decoders, legs: Legs)
    requires Decodable(tx, d)
    ensures SourceParty(tx, d, legs).mint ==
            if legs.mint != NoAddress then legs.mint else SearchedMint(tx, d, legs.source)
  {
  }

  lemma DestinationMint(tx: Tx, d: Decoders, legs: Legs, source: Party)
    requires Decodable(tx, d)
    ensures DestinationParty(tx, d, legs, source).mint ==
            if source.mint != NoAddress then source.mint else HeldMint(tx, d, legs.destination)
  {
  }

  lemma FirstOfThree(a: Address, b: Address, c: Address)
    ensures IsFirst([a, b, c], if a != NoAddress then a else if b != NoAddress then b else c)
  {
    var all := [a, b, c];
    assert all[0] == a && all[1] == b && all[2] == c;
  }

  lemma MintFound(tx: Tx, d: Decoders, legs: Legs)
    requires Decodable(tx, d)
    ensures IsFirst([legs.mint, SearchedMint(tx, d, legs.source), HeldMint(tx, d, legs.destination)],
                    DestinationParty(tx, d, legs, SourceParty(tx, d, legs)).mint)
  {
    SourceMint(tx, d, legs);
    DestinationMint(tx, d, legs, SourceParty(tx, d, legs));
    FirstOfThree(legs.mint, SearchedMint(tx, d, legs.source), HeldMint(tx, d, legs.destination));
  }

  lemma DecimalsFound(tx: Tx, d: Decoders, legs: Legs)
    requires Decodable(tx, d)
    ensures DestinationParty(tx, d, legs, SourceParty(tx, d, legs)).decimals ==
            KnownDecimals(tx, d, legs.decimals, legs.source, legs.destination)
  {
  }

  lemma TransferCarriesLegs(ix: Instruction, tx: Tx, d: Decoders, innerIndex: int, ixIndex: int)
    requires Decodable(tx, d)
    requires var keys := AllAccountKeys(tx);
             Complete(ix, keys, d) && Resolves(ix, keys) && keys[ix.program] == TokenProgram
    ensures var keys, data := AllAccountKeys(tx), d.token(ix.data);
            var legs, r := TokenLegs(ix, keys, d), TokenTransfer(ix, tx, d, innerIndex, ixIndex);
            && (r.Moved? <==> legs.Some?)
            && (r.Moved? ==> Carries(r.transfer, tx, d, legs.value.mint, legs.value.decimals, data.amount))
  {
    var legs := TokenLegs(ix, AllAccountKeys(tx), d);
    if legs.Some? {
      OwnersOfLegs(tx, d, legs.value);
      MintFound(tx, d, legs.value);
      DecimalsFound(tx, d, legs.value);
    }
  }

  function ProcessInstruction(ix: Instruction, tx: Tx, d: Decoders, innerIndex: int, ixIndex: int): (r: Processed)
    requires Decodable(tx, d) && Complete(ix, AllAccountKeys(tx), d)
    ensures r.Moved? ==>
              var t, keys := r.transfer, AllAccountKeys(tx);
              && t.innerIndex == innerIndex && t.ixIndex == ixIndex && t.amount.Some? && t.amount.value >= 0.0
              && Resolves(ix, keys)
              && (t.kind.NativeMove? <==> keys[ix.program] == SystemProgram)
              && (!t.kind.NativeMove? <==> keys[ix.program] == TokenProgram)
  {
    var keys := AllAccountKeys(tx);
    if |keys| - 1 < ix.program then Nothing
    else if keys[ix.program] == SystemProgram then NativeTransfer(ix, keys, d, innerIndex, ixIndex)
    else if keys[ix.program] == TokenProgram && InBounds(ix.accounts, keys) then
      TokenTransfer(ix, tx, d, innerIndex, ixIndex)
    else Nothing
  }

  /** Who moves what, by account. */
  predicate Moves(t: Transfer, kind: TransferKind, source: Address, destination: Address, authority: Address) {
    t.kind == kind && t.fromAccount == source && t.toAccount == destination && t.authority == authority
  }

  /** What an instruction comes to, by program and kind, with the accounts it names by their positions:
      exactly five kinds move something, and two create a mint. */
  lemma MovementOf(ix: Instruction, tx: Tx, d: Decoders, innerIndex: int, ixIndex: int)
    requires Decodable(tx, d) && Complete(ix, AllAccountKeys(tx), d) && Resolves(ix, AllAccountKeys(tx))
    ensures var keys, r := AllAccountKeys(tx), ProcessInstruction(ix, tx, d, innerIndex, ixIndex);
            if keys[ix.program] == SystemProgram then
              var data := d.system(ix.data);
              && !r.MintCreated?
              && (r.Moved? <==>
                    data.kind.SystemTransfer? && keys[ix.accounts[0]] != NoAddress && keys[ix.accounts[1]] != NoAddress)
              && (r.Moved? ==>
                    && r.transfer.fromUser == keys[ix.accounts[0]] && r.transfer.toUser == keys[ix.accounts[1]]
                    && Moves(r.transfer, NativeMove, NoAddress, NoAddress, NoAddress)
                    && r.transfer.mint == Sol && r.transfer.amount == Some(Scaled(data.lamports, 9)))
            else if keys[ix.program] == TokenProgram then
              match d.token(ix.data).kind
              case TransferChecked => r.Moved?
              case PlainTransfer => r.Moved?
              case MintTo => r.Moved?
              case Burn => r.Moved?
              case InitializeMint => r == MintCreated(keys[ix.accounts[0]], d.token(ix.data).decimals)
              case InitializeMint2 => r == MintCreated(keys[ix.accounts[0]], d.token(ix.data).decimals)
              case _ => r == Nothing
            else r == Nothing
    ensures var keys, r := AllAccountKeys(tx), ProcessInstruction(ix, tx, d, innerIndex, ixIndex);
            keys[ix.program] == TokenProgram && r.Moved? ==>
              var t, data := r.transfer, d.token(ix.data);
              match data.kind
              case TransferChecked =>
                && Moves(t, TokenMove, keys[ix.accounts[0]], keys[ix.accounts[2]], keys[ix.accounts[3]])
                && Carries(t, tx, d, keys[ix.accounts[1]], -1, data.amount)
              case PlainTransfer =>
                && Moves(t, TokenMove, keys[ix.accounts[0]], keys[ix.accounts[1]], keys[ix.accounts[2]])
                && Carries(t, tx, d, NoAddress, data.decimals, data.amount)
              case MintTo =>
                && Moves(t, MintMove, NoAddress, keys[ix.accounts[1]], keys[ix.accounts[2]])
                && Carries(t, tx, d, keys[ix.accounts[0]], -1, data.amount)
              case Burn =>
                && Moves(t, BurnMove, keys[ix.accounts[0]], NoAddress, keys[ix.accounts[2]])
                && Carries(t, tx, d, keys[ix.accounts[1]], -1, data.amount)
              case _ => false
  {
    if AllAccountKeys(tx)[ix.program] == TokenProgram {
      TransferCarriesLegs(ix, tx, d, innerIndex, ixIndex);
    }
  }

  lemma ScaledKeepsOrder(a: nat, b: nat, decimals: int)
    ensures Scaled(a, decimals) < Scaled(b, decimals) <==> a < b
    ensures Scaled(a, decimals) == Scaled(b, decimals) <==> a == b
  {
    var x, y, p := Scaled(a, decimals), Scaled(b, decimals), Pow10(decimals);
    Rescaled(a, decimals);
    Rescaled(b, decimals);
    assert x * p == a as real && y * p == b as real;
    Ordered(x, y, p);
    Ordered(y, x, p);
  }

  lemma Rescaled(a: nat, decimals: int)
    ensures Scaled(a, decimals) * Pow10(decimals) == a as real
  {
  }

  lemma Ordered(x: real, y: real, p: real)
    requires p > 0.0
    ensures x < y <==> x * p < y * p
  {
    if x < y {
      assert (y - x) * p > 0.0;
    }
    if x > y {
      assert (x - y) * p > 0.0;
    }
  }

  /** The amounts of two movements in the same decimals compare as the integer amounts that their
      instructions name: nothing is lost on the way, so equal amounts are equal movements. */
  lemma {:induction false} AmountsAreExact(tx: Tx, d: Decoders, t: Transfer, u: Transfer, a: Address, b: Address,
                                           i: int, j: int, m: nat, n: nat)
    requires Decodable(tx, d) && Carries(t, tx, d, a, i, m) && Carries(u, tx, d, b, j, n)
    requires t.decimals == u.decimals
    ensures t.amount == u.amount <==> m == n
    ensures t.amount.value < u.amount.value <==> m < n
  {
    ScaledKeepsOrder(m, n, t.decimals);
  }
}
