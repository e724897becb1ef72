/** The text form of the wallet daemon's permissions. Models clients/wallet_daemon_client/src/permissions.rs. */
module Permissions {

  import opened Wrappers
  import opened Text

  datatype ResourceAddress = ResourceAddress(raw: string)
  datatype ComponentAddress = ComponentAddress(raw: string)
  datatype SubstateId = SubstateId(raw: string)

  datatype Permission =
    | AccountInfo
    | NftGetOwnershipProof(resource: Option<ResourceAddress>)
    | AccountBalance(id: SubstateId)
    | AccountList(component: Option<ComponentAddress>)
    | SubstatesRead
    | TemplatesRead
    | KeyList
    | TransactionGet
    | TransactionSend(target: Option<SubstateId>)
    | GetNft(nft: Option<SubstateId>, collection: Option<ResourceAddress>)
    | StartWebrtc
    | Admin

  /** Printing and parsing of the address types. */
  datatype Addresses = Addresses(
    printResource: ResourceAddress -> string, parseResource: string -> Result<ResourceAddress, string>,
    printComponent: ComponentAddress -> string, parseComponent: string -> Result<ComponentAddress, string>,
    printId: SubstateId -> string, parseId: string -> Result<SubstateId, string>)
  {
    ghost predicate RoundTrip() {
      && (forall a :: parseResource(printResource(a)) == Ok(a))
      && (forall a :: parseComponent(printComponent(a)) == Ok(a))
      && (forall a :: parseId(printId(a)) == Ok(a))
    }
  }

  function NameOf(p: Permission): string {
    match p
    case AccountInfo => "AccountInfo"
    case NftGetOwnershipProof(_) => "NftGetOwnershipProof"
    case AccountBalance(_) => "AccountBalance"
    case AccountList(_) => "AccountList"
    case SubstatesRead => "SubstatesRead"
    case TemplatesRead => "TemplatesRead"
    case KeyList => "KeyList"
    case TransactionGet => "TransactionGet"
    case TransactionSend(_) => "TransactionSend"
    case GetNft(_, _) => "GetNft"
    case StartWebrtc => "StartWebrtc"
    case Admin => "Admin"
  }

  function Argument(p: Permission, addresses: Addresses): Option<string> {
    match p
    case NftGetOwnershipProof(Some(a)) => Some(addresses.printResource(a))
    case AccountBalance(a) => Some(addresses.printId(a))
    case AccountList(Some(a)) => Some(addresses.printComponent(a))
    case TransactionSend(Some(a)) => Some(addresses.printId(a))
    case _ => None
  }

  /** The name, followed by an underscore and the argument if one is printed. */
  function Print(p: Permission, addresses: Addresses): string {
    match Argument(p, addresses)
    case None => NameOf(p)
    case Some(argument) => NameOf(p) + "_" + argument
  }

  /** A permission with an argument; `whole` is the text for the error message. */
  function ParseWith(name: string, argument: string, whole: string, addresses: Addresses): Result<Permission, string> {
    if name == "NftGetOwnershipProof" then
      match addresses.parseResource(argument)
      case Ok(a) => Ok(NftGetOwnershipProof(Some(a)))
      case Err(e) => Err(e)
    else if name == "AccountBalance" then
      match addresses.parseId(argument)
      case Ok(a) => Ok(AccountBalance(a))
      case Err(e) => Err(e)
    else if name == "AccountList" then
      match addresses.parseComponent(argument)
      case Ok(a) => Ok(AccountList(Some(a)))
      case Err(e) => Err(e)
    else if name == "TransactionSend" then
      match addresses.parseId(argument)
      case Ok(a) => Ok(TransactionSend(Some(a)))
      case Err(e) => Err(e)
    else Err(whole)
  }

  function ParsePlain(s: string): Result<Permission, string> {
    if s == "AccountInfo" then Ok(AccountInfo)
    else if s == "NftGetOwnershipProof" then Ok(NftGetOwnershipProof(None))
    else if s == "AccountList" then Ok(AccountList(None))
    else if s == "SubstatesRead" then Ok(SubstatesRead)
    else if s == "TemplatesRead" then Ok(TemplatesRead)
    else if s == "KeyList" then Ok(KeyList)
    else if s == "GetNft" then Ok(GetNft(None, None))
    else if s == "TransactionGet" then Ok(TransactionGet)
    else if s == "TransactionSend" then Ok(TransactionSend(None))
    else if s == "StartWebrtc" then Ok(StartWebrtc)
    else if s == "Admin" then Ok(Admin)
    else Err(s)
  }

  function Parse(s: string, addresses: Addresses): Result<Permission, string> {
    match SplitOnce(s, '_')
    case Parts(name, argument) => ParseWith(name, argument, s, addresses)
    case Whole => ParsePlain(s)
  }

  lemma LongNamesHaveNoUnderscore(p: Permission)
    requires 14 <= |NameOf(p)|
    ensures Free(NameOf(p), '_')
  {
  }

  lemma NamesHaveNoUnderscore(p: Permission)
    ensures Free(NameOf(p), '_')
  {
    if 14 <= |NameOf(p)| {
      LongNamesHaveNoUnderscore(p);
    }
  }

  lemma ParseSeesNameAndArgument(p: Permission, addresses: Addresses)
    ensures Parse(Print(p, addresses), addresses) ==
            match Argument(p, addresses) {
              case None => ParsePlain(NameOf(p))
              case Some(argument) => ParseWith(NameOf(p), argument, Print(p, addresses), addresses)
            }
  {
    hide NameOf, Argument, ParsePlain, ParseWith;
    NamesHaveNoUnderscore(p);
    var argument := if Argument(p, addresses).Some? then Argument(p, addresses).value else "";
    SplitOnceAfter(NameOf(p), argument, '_');
  }

  lemma PlainNameParses(p: Permission, addresses: Addresses)
    requires Argument(p, addresses).None?
    ensures ParsePlain(NameOf(p)) == Ok(if p.GetNft? then GetNft(None, None) else p)
  {
  }

  lemma ArgumentParses(p: Permission, whole: string, addresses: Addresses)
    requires addresses.RoundTrip() && Argument(p, addresses).Some?
    ensures ParseWith(NameOf(p), Argument(p, addresses).value, whole, addresses) == Ok(p)
  {
  }

  /** Parsing undoes printing exactly for the permissions other than `GetNft` with an argument, which prints without it. */
  lemma ParsePrint(p: Permission, addresses: Addresses)
    requires addresses.RoundTrip()
    ensures Parse(Print(p, addresses), addresses) == Ok(p) <==> !(p.GetNft? && (p.nft.Some? || p.collection.Some?))
  {
    hide NameOf, ParsePlain, ParseWith, Parse, Print;
    ParseSeesNameAndArgument(p, addresses);
    if Argument(p, addresses).None? {
      PlainNameParses(p, addresses);
    } else {
      ArgumentParses(p, Print(p, addresses), addresses);
    }
  }

  /** The permission's argument is what the address type reads from the text. */
  ghost predicate Reads(p: Permission, argument: string, addresses: Addresses) {
    match p
    case NftGetOwnershipProof(Some(a)) => addresses.parseResource(argument) == Ok(a)
    case AccountBalance(a) => addresses.parseId(argument) == Ok(a)
    case AccountList(Some(a)) => addresses.parseComponent(argument) == Ok(a)
    case TransactionSend(Some(a)) => addresses.parseId(argument) == Ok(a)
    case _ => false
  }

  /** The permission is its name alone. */
  ghost predicate IsPlain(p: Permission) {
    match p
    case NftGetOwnershipProof(a) => a.None?
    case AccountBalance(_) => false
    case AccountList(a) => a.None?
    case TransactionSend(a) => a.None?
    case GetNft(nft, collection) => nft.None? && collection.None?
    case _ => true
  }

  /** What the text means as the permission: its name alone, or its name, an underscore and its argument. */
  ghost predicate Spells(s: string, p: Permission, addresses: Addresses) {
    || (s == NameOf(p) && IsPlain(p))
    || (exists argument :: s == NameOf(p) + "_" + argument && Reads(p, argument, addresses))
  }

  lemma ParsePlainExactlyWhen(s: string, p: Permission)
    ensures ParsePlain(s) == Ok(p) <==> s == NameOf(p) && IsPlain(p)
  {
  }

  lemma ParseWithExactlyWhen(name: string, argument: string, whole: string, p: Permission, addresses: Addresses)
    ensures ParseWith(name, argument, whole, addresses) == Ok(p) <==> name == NameOf(p) && Reads(p, argument, addresses)
  {
  }

  /** The texts of the permissions without argument. */
  lemma PlainTexts()
    ensures NameOf(AccountInfo) == "AccountInfo" && NameOf(SubstatesRead) == "SubstatesRead" && NameOf(KeyList) == "KeyList"
    ensures NameOf(TemplatesRead) == "TemplatesRead" && NameOf(TransactionGet) == "TransactionGet"
    ensures NameOf(StartWebrtc) == "StartWebrtc" && NameOf(Admin) == "Admin" && NameOf(GetNft(None, None)) == "GetNft"
  {
  }

  /** The texts of the permissions with an argument, or an optional one. */
  lemma ArgumentTexts(p: Permission)
    ensures p.NftGetOwnershipProof? ==> NameOf(p) == "NftGetOwnershipProof"
    ensures p.AccountBalance? ==> NameOf(p) == "AccountBalance"
    ensures p.AccountList? ==> NameOf(p) == "AccountList"
    ensures p.TransactionSend? ==> NameOf(p) == "TransactionSend"
  {
  }

  /** Exactly the texts that spell a permission parse to it; all others are errors. */
  lemma ParseExactlyWhen(s: string, p: Permission, addresses: Addresses)
    ensures Parse(s, addresses) == Ok(p) <==> Spells(s, p, addresses)
  {
    hide NameOf, ParsePlain, ParseWith, IsPlain, Reads;
    NamesHaveNoUnderscore(p);
    SplitOnceMeans(s, '_');
    match SplitOnce(s, '_')
    case Whole =>
      ParsePlainExactlyWhen(s, p);
      forall argument ensures s != NameOf(p) + "_" + argument {
        assert (NameOf(p) + "_" + argument)[|NameOf(p)|] == '_';
      }
    case Parts(name, argument) =>
      ParseWithExactlyWhen(name, argument, s, p, addresses);
      assert s[|name|] == '_';
      forall other | s == NameOf(p) + "_" + other ensures other == argument && name == NameOf(p) {
        SplitOnceAfter(NameOf(p), other, '_');
      }
  }

  // ---- Sets of permissions ----

  /** Parses the texts from the left up to the first error. */
  function Collect(texts: seq<string>, addresses: Addresses): Result<set<Permission>, string> {
    if texts == [] then Ok({})
    else
      match Collect(texts[..|texts| - 1], addresses)
      case Err(e) => Err(e)
      case Ok(before) =>
        match Parse(texts[|texts| - 1], addresses)
        case Err(e) => Err(e)
        case Ok(p) => Ok(before + {p})
  }

  /** The comma-separated form. */
  function ParseSet(s: string, addresses: Addresses): Result<set<Permission>, string> {
    Collect(TrimAll(Split(s, ',')), addresses)
  }

  lemma {:induction false} CollectStopsAtError(texts: seq<string>, k: nat, addresses: Addresses)
    requires k <= |texts| && Collect(texts[..k], addresses).Err?
    ensures Collect(texts, addresses) == Collect(texts[..k], addresses)
    decreases |texts|
  {
    if k == |texts| {
      assert texts[..k] == texts;
    } else {
      assert texts[..|texts| - 1][..k] == texts[..k];
      CollectStopsAtError(texts[..|texts| - 1], k, addresses);
    }
  }

  /** The list form: inserts one permission after the other. */
  method FromList(texts: seq<string>, addresses: Addresses) returns (r: Result<set<Permission>, string>)
    ensures r == Collect(texts, addresses)
  {
    var permissions: set<Permission> := {};
    for i := 0 to |texts|
      invariant Collect(texts[..i], addresses) == Ok(permissions)
    {
      assert texts[..i + 1][..i] == texts[..i];
      match Parse(texts[i], addresses) {
        case Ok(p) =>
          permissions := permissions + {p};
        case Err(e) =>
          CollectStopsAtError(texts, i + 1, addresses);
          return Err(e);
      }
    }
    assert texts[..|texts|] == texts;
    r := Ok(permissions);
  }

  lemma {:induction false} CollectAccepts(texts: seq<string>, addresses: Addresses)
    ensures Collect(texts, addresses).Ok? <==> forall i :: 0 <= i < |texts| ==> Parse(texts[i], addresses).Ok?
  {
    hide Parse;
    if texts != [] {
      CollectAccepts(texts[..|texts| - 1], addresses);
    }
  }

  /** When every text parses, the list form gives the set of all parsed permissions. */
  lemma {:induction false} CollectMeans(texts: seq<string>, ps: seq<Permission>, addresses: Addresses)
    requires |ps| == |texts| && forall i :: 0 <= i < |ps| ==> Parse(texts[i], addresses) == Ok(ps[i])
    ensures Collect(texts, addresses) == Ok(set p | p in ps)
  {
    hide Parse;
    if texts != [] {
      var n := |ps| - 1;
      CollectMeans(texts[..n], ps[..n], addresses);
      assert (set p | p in ps) == (set p | p in ps[..n]) + {ps[n]};
    } else {
      assert (set p | p in ps) == {};
    }
  }

  /** Both forms agree, in the set or in the first error, on non-empty lists of trimmed texts without commas;
      they succeed exactly when every text parses. */
  lemma SetFormsAgree(texts: seq<string>, addresses: Addresses)
    requires texts != [] && AllFree(texts, ',') && forall i :: 0 <= i < |texts| ==> Trimmed(texts[i])
    ensures ParseSet(Join(texts, ','), addresses) == Collect(texts, addresses)
    ensures ParseSet(Join(texts, ','), addresses).Ok? <==> forall i :: 0 <= i < |texts| ==> Parse(texts[i], addresses).Ok?
  {
    hide Parse;
    CollectAccepts(texts, addresses);
    SplitJoin(texts, ',');
    forall i | 0 <= i < |texts| ensures Trim(texts[i]) == texts[i] {
      TrimPadded(0, texts[i], 0);
      assert Spaces(0) + texts[i] + Spaces(0) == texts[i];
    }
    assert TrimAll(texts) == texts;
  }

  /** So any non-empty list of printed permissions without arguments to `GetNft` comes back as a set, given that printed
      addresses contain no comma and no outer white space. */
  lemma SetRoundTrip(ps: seq<Permission>, texts: seq<string>, addresses: Addresses)
    requires addresses.RoundTrip() && ps != [] && |texts| == |ps|
    requires forall i :: 0 <= i < |ps| ==> texts[i] == Print(ps[i], addresses) && (ps[i].GetNft? ==> ps[i] == GetNft(None, None))
    requires AllFree(texts, ',') && forall i :: 0 <= i < |texts| ==> Trimmed(texts[i])
    ensures ParseSet(Join(texts, ','), addresses) == Ok(set p | p in ps)
  {
    hide Parse, Print, ParseSet, Collect;
    SetFormsAgree(texts, addresses);
    forall i | 0 <= i < |ps| ensures Parse(texts[i], addresses) == Ok(ps[i]) {
      ParsePrint(ps[i], addresses);
    }
    CollectMeans(texts, ps, addresses);
  }
}
