/** The shared wallet context: connection state, the profile write and the profile
    read. Provider, signer and contract objects are abstracted to which contracts
    are available and to the outcome of each awaited call. */
module WalletContext {
  import opened Common

  /** Which contract handles the context holds. */
  datatype Contracts = Contracts(userProfile: bool, milestoneContract: bool)

  /** The provider's state. */
  datatype Session = Session(address: Option<string>, contracts: Option<Contracts>, isLoading: bool, contractsReady: bool)

  const InitialSession: Session := Session(None, None, false, false)

  /** How far `connectWallet` gets: no injected provider, account access refused,
      address obtained but `getContracts` failed, or fully connected. */
  datatype ConnectOutcome =
    | NoProvider
    | AccountsRefused
    | ContractsFailed(address: string)
    | Connected(address: string, contracts: Contracts)

  /** Readiness is only ever claimed for a session with an address and contracts. */
  predicate Consistent(s: Session) {
    s.contractsReady ==> s.address.Some? && s.contracts.Some?
  }

  /** `connectWallet`: the address is set as soon as it is known, the contracts and
      readiness only when the contracts are obtained; whatever happens the call ends
      with `isLoading` false. */
  function ConnectWallet(s: Session, outcome: ConnectOutcome): (r: Session)
    ensures !r.isLoading
    ensures outcome.NoProvider? || outcome.AccountsRefused? ==> r == s.(isLoading := false)
    ensures outcome.ContractsFailed? ==> r.address == Some(outcome.address) && r.contracts == s.contracts
                                         && r.contractsReady == s.contractsReady
    ensures outcome.Connected? ==> r.address == Some(outcome.address) && r.contracts == Some(outcome.contracts)
                                   && r.contractsReady
    ensures r.contractsReady && !s.contractsReady ==> outcome.Connected?
  {
    match outcome
    case NoProvider => s.(isLoading := false)
    case AccountsRefused => s.(isLoading := false)
    case ContractsFailed(a) => s.(address := Some(a), isLoading := false)
    case Connected(a, c) => Session(Some(a), Some(c), false, true)
  }

  /** `disconnectWallet`: address and contracts cleared, not ready; `isLoading` kept. */
  function DisconnectWallet(s: Session): (r: Session)
    ensures r.address.None? && r.contracts.None? && !r.contractsReady
    ensures r.isLoading == s.isLoading
  {
    Session(None, None, s.isLoading, false)
  }

  /** `checkContractsReady`. */
  function CheckContractsReady(s: Session): bool {
    s.contractsReady
  }

  /** The names `useContracts()` returns. `connectWallet` takes `getContracts` from
      it, which is not among them. */
  const HookNames: set<string> := {"decentHire", "userProfile", "provider", "signer"}

  /** The outcome `connectWallet` reaches when `getContracts` is taken from the hook:
      a name the hook does not return is `undefined`, so a connect that would have
      obtained contracts throws right after the address is set. */
  function WithHookContracts(outcome: ConnectOutcome): (r: ConnectOutcome)
    ensures outcome.Connected? && "getContracts" !in HookNames ==> r == ContractsFailed(outcome.address)
    ensures !outcome.Connected? ==> r == outcome
  {
    match outcome
    case Connected(a, c) => if "getContracts" in HookNames then outcome else ContractsFailed(a)
    case _ => outcome
  }

  /** With the hook as written no connect ever sets contracts or readiness: from the
      initial session the profile write always fails and the profile read is null. */
  lemma HookNeverConnectsContracts(s: Session, outcome: ConnectOutcome, payload: Payload, tx: TxOutcome, read: ProfileRead)
    ensures ConnectWallet(s, WithHookContracts(outcome)).contracts == s.contracts
    ensures ConnectWallet(s, WithHookContracts(outcome)).contractsReady == s.contractsReady
    ensures var c := ConnectWallet(InitialSession, WithHookContracts(outcome));
            && !c.contractsReady
            && UpdateProfile(c, payload, tx).error == Some(NoProfileContract)
            && GetProfile(c, read).None?
  {
  }

  /** The names the provider's value object carries. A page that destructures any
      other name receives `undefined`. */
  const ProvidedNames: set<string> :=
    {"address", "contracts", "isLoading", "contractsReady", "connectWallet", "disconnectWallet",
     "updateProfile", "getProfile", "checkContractsReady"}

  /** Awaiting `name(...)` taken from the context: a name the context does not carry
      is `undefined`, and calling it throws whatever the call itself would have done. */
  function CallThroughContext(name: string, outcome: CallOutcome): (r: CallOutcome)
    ensures name !in ProvidedNames ==> r == Threw
    ensures name in ProvidedNames ==> r == outcome
  {
    if name in ProvidedNames then outcome else Threw
  }

  /** Every transition of the context keeps readiness tied to a connected session. */
  lemma TransitionsKeepConsistent(s: Session, outcome: ConnectOutcome)
    requires Consistent(s)
    ensures Consistent(ConnectWallet(s, outcome))
    ensures Consistent(DisconnectWallet(s))
    ensures Consistent(InitialSession)
  {
  }

  /** A user action on the context. */
  datatype Event = Connect(outcome: ConnectOutcome) | Disconnect

  /** The session after `events`, applied in order. */
  function Replay(s: Session, events: seq<Event>): Session
    decreases |events|
  {
    if |events| == 0 then s
    else
      var next := match events[0]
        case Connect(o) => ConnectWallet(s, o)
        case Disconnect => DisconnectWallet(s);
      Replay(next, events[1..])
  }

  /** Any sequence of connects and disconnects from a consistent session keeps it consistent. */
  lemma {:induction false} ReplayKeepsConsistent(s: Session, events: seq<Event>)
    requires Consistent(s)
    ensures Consistent(Replay(s, events))
    decreases |events|
  {
    if |events| > 0 {
      match events[0]
      case Connect(o) => TransitionsKeepConsistent(s, o); ReplayKeepsConsistent(ConnectWallet(s, o), events[1..]);
      case Disconnect => TransitionsKeepConsistent(s, NoProvider); ReplayKeepsConsistent(DisconnectWallet(s), events[1..]);
    }
  }

  /** Whatever the user did since the provider mounted, `checkContractsReady()`
      reports true only for a session with an address and contracts. */
  lemma ReadyMeansConnected(events: seq<Event>)
    ensures CheckContractsReady(Replay(InitialSession, events)) ==>
              Replay(InitialSession, events).address.Some? && Replay(InitialSession, events).contracts.Some?
  {
    ReplayKeepsConsistent(InitialSession, events);
  }

  /** Every connect in `events` goes through the hook as written. */
  predicate Hooked(events: seq<Event>) {
    forall i :: 0 <= i < |events| ==> events[i].Connect? ==> !events[i].outcome.Connected?
  }

  /** As wired, no sequence of connects and disconnects ever makes the context
      ready or gives it contracts. */
  lemma {:induction false} HookedNeverReady(s: Session, events: seq<Event>)
    requires s.contracts.None? && !s.contractsReady
    requires Hooked(events)
    ensures Replay(s, events).contracts.None? && !CheckContractsReady(Replay(s, events))
    decreases |events|
  {
    if |events| > 0 {
      assert Hooked(events[1..]) by {
        forall i | 0 <= i < |events[1..]| && events[1..][i].Connect?
          ensures !events[1..][i].outcome.Connected?
        {
          assert events[1..][i] == events[i + 1];
        }
      }
      match events[0]
      case Connect(o) => HookedNeverReady(ConnectWallet(s, o), events[1..]);
      case Disconnect => HookedNeverReady(DisconnectWallet(s), events[1..]);
    }
  }

  /** The events as the provider really sees them: every connect outcome passes
      through the hook as written. */
  function Wired(events: seq<Event>): (r: seq<Event>)
    ensures |r| == |events|
    ensures Hooked(r)
  {
    seq(|events|, i requires 0 <= i < |events| =>
      match events[i]
      case Connect(o) => Connect(WithHookContracts(o))
      case Disconnect => Disconnect)
  }

  /** As wired, from the moment the provider mounts, no sequence of connects and
      disconnects makes `checkContractsReady()` true or sets contracts. */
  lemma AsWiredNeverReady(events: seq<Event>)
    ensures !CheckContractsReady(Replay(InitialSession, Wired(events)))
    ensures Replay(InitialSession, Wired(events)).contracts.None?
  {
    HookedNeverReady(InitialSession, Wired(events));
  }

  // ---------------------------------------------------------------------------
  // Profile write

  /** An object literal passed to `updateProfile`: each key maps to a value that
      may be `undefined`; an absent key reads as `undefined` too. */
  type Payload = map<string, Option<string>>

  function Field(payload: Payload, key: string): Option<string> {
    if key in payload then payload[key] else None
  }

  /** The six positional arguments of `updateUserProfile`. */
  datatype ProfileArgs = ProfileArgs(name: Option<string>, about: Option<string>, image: Option<string>,
                                     mail: Option<string>, twitter: Option<string>, github: Option<string>)

  /** The outcome of sending a transaction and waiting for it. */
  datatype TxOutcome = Mined | TxFailed(message: string)

  /** What `updateProfile` did: the call it made, if any, and the error it threw, if any. */
  datatype ProfileUpdate = ProfileUpdate(call: Option<ProfileArgs>, error: Option<string>)

  const NoProfileContract: string := "User profile contract not available."

  /** `updateProfile({ name, about, image, mail, twitter, github })`: without the
      profile contract it throws before calling; otherwise it calls with the keys
      `name`, `about`, `image`, `mail`, `twitter`, `github` in that order and
      rethrows a failure with a prefixed message. */
  function UpdateProfile(s: Session, payload: Payload, tx: TxOutcome): (r: ProfileUpdate)
    ensures (s.contracts.None? || !s.contracts.value.userProfile) ==> r == ProfileUpdate(None, Some(NoProfileContract))
    ensures s.contracts.Some? && s.contracts.value.userProfile ==>
              && r.call == Some(ProfileArgs(Field(payload, "name"), Field(payload, "about"), Field(payload, "image"),
                                            Field(payload, "mail"), Field(payload, "twitter"), Field(payload, "github")))
              && (r.error.None? <==> tx.Mined?)
              && (tx.TxFailed? ==> r.error == Some("Error updating profile: " + tx.message))
  {
    if s.contracts.None? || !s.contracts.value.userProfile then ProfileUpdate(None, Some(NoProfileContract))
    else
      var args := ProfileArgs(Field(payload, "name"), Field(payload, "about"), Field(payload, "image"),
                              Field(payload, "mail"), Field(payload, "twitter"), Field(payload, "github"));
      match tx
      case Mined => ProfileUpdate(Some(args), None)
      case TxFailed(m) => ProfileUpdate(Some(args), Some("Error updating profile: " + m))
  }

  // ---------------------------------------------------------------------------
  // Profile read

  /** A profile as the pages see it; fields may be `undefined`. */
  datatype Profile = Profile(name: Option<string>, image: Option<string>, about: Option<string>,
                             mail: Option<string>, twitter: Option<string>, github: Option<string>)

  /** The answer of `getUserProfile(address)`: it throws, or returns a tuple. */
  datatype ProfileRead = ReadThrew | ReadTuple(fields: seq<string>)

  /** `tuple[i]`, `undefined` past the end. */
  function At(fields: seq<string>, i: nat): Option<string> {
    if i < |fields| then Some(fields[i]) else None
  }

  /** `getProfile`: null without the profile contract or an address, null when the
      read throws, and otherwise tuple positions 0..5 as name, image, about, mail,
      twitter and github. */
  function GetProfile(s: Session, read: ProfileRead): (r: Option<Profile>)
    ensures (s.contracts.None? || !s.contracts.value.userProfile || !Truthy(s.address)) ==> r.None?
    ensures read.ReadThrew? ==> r.None?
    ensures r.Some? <==> s.contracts.Some? && s.contracts.value.userProfile && Truthy(s.address) && read.ReadTuple?
    ensures r.Some? ==> r.value == Profile(At(read.fields, 0), At(read.fields, 1), At(read.fields, 2),
                                           At(read.fields, 3), At(read.fields, 4), At(read.fields, 5))
  {
    if s.contracts.None? || !s.contracts.value.userProfile || !Truthy(s.address) then None
    else match read
      case ReadThrew => None
      case ReadTuple(f) => Some(Profile(At(f, 0), At(f, 1), At(f, 2), At(f, 3), At(f, 4), At(f, 5)))
  }
}
