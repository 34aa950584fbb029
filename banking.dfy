/** `RemoteBank` (src/liptSoft/Ignatov/wallet/RemoteBank.java): the registry
    of individuals and their wallets, as a class over its three tables.

    Java's `null` is `None`: a missing person, passport or id argument, and a
    lookup that finds nothing. Each `putIfAbsent`/`add` on the concurrent
    collections is one atomic step here, and the per-passport id set is a
    value that the bank reassigns. */
module Banking {
  import opened Wrappers
  import JavaText
  import WalletEngine

  /** `RemotePerson`: three strings, each of which may be null. */
  datatype Person = Person(name: Option<string>, surname: Option<string>, passport: Option<string>)

  /** The runtime exceptions the bank can throw. */
  datatype Fault =
    | IndexOutOfBounds   // `id.split(":")[0]` on an id made only of ':'
    | NullPointer        // `personIds.get(null)` for a person without a passport

  /** `id.split(":")[0]`: the passport a wallet id belongs to, or None where
      the split yields no word at all. */
  function Passport(id: string): (r: Option<string>)
    ensures r.None? <==> id != "" && JavaText.AllSep(id, ':')
  {
    var parts := JavaText.Split(id, ':');
    if id != "" && JavaText.AllSep(id, ':') then
      JavaText.OnlySeparatorsSplitToNothing(id, ':');
      None
    else
      NonBlankSplits(id);
      Some(parts[0])
  }

  lemma NonBlankSplits(id: string)
    requires !(id != "" && JavaText.AllSep(id, ':'))
    ensures JavaText.Split(id, ':') != []
  {
    if ':' in id {
      JavaText.SplitSpec(id, ':');
      assert id[0..] == id;
    }
  }

  /** The passport of an id is the text before its first ':' (all of it when
      there is none); `passport + ":" + rest` belongs to `passport`, also to
      the empty passport unless `rest` is made only of ':'. */
  lemma PassportIsPrefix(passport: string, rest: string)
    requires ':' !in passport && (passport != "" || !JavaText.AllSep(rest, ':'))
    ensures Passport(passport) == Some(passport)
    ensures Passport(passport + ":" + rest) == Some(passport)
  {
    JavaText.SplitHead(passport, rest, ':');
    assert passport + ":" + rest == passport + [':'] + rest;
    var id := passport + ":" + rest;
    if passport != "" {
      assert id[0] == passport[0];
    } else {
      var i :| 0 <= i < |rest| && rest[i] != ':';
      assert id[i + 1] == rest[i];
    }
  }

  /** How the three tables fit together: a person is stored under their own
      passport and has an id set; every recorded id names a stored wallet and
      belongs to the passport it is recorded under. */
  predicate Registry(persons: map<string, Person>, personIds: map<string, set<string>>,
                     wallets: map<string, WalletEngine.WalletImpl>)
  {
    && (forall p :: p in persons ==> persons[p].passport == Some(p) && p in personIds)
    && (forall p, id :: p in personIds && id in personIds[p] ==>
          id in wallets && Passport(id) == Some(p))
  }

  class RemoteBank {
    var personIds: map<string, set<string>>
    var persons: map<string, Person>
    var wallets: map<string, WalletEngine.WalletImpl>

    ghost predicate Valid()
      reads this
    {
      Registry(persons, personIds, wallets)
    }

    /** A bank with no individuals and no wallets. */
    constructor ()
      ensures Valid()
      ensures personIds == map[] && persons == map[] && wallets == map[]
    {
      personIds, persons, wallets := map[], map[], map[];
    }

    /** `createWallet`: null for a null id; otherwise the wallet stored under
        the id, creating an empty one the first time. A new id is recorded
        under its passport only when an id set for that passport already
        existed; otherwise an empty set is created and the id is not in it. */
    method CreateWallet(id: Option<string>) returns (r: Result<Option<WalletEngine.WalletImpl>, Fault>)
      requires Valid()
      modifies this
      ensures Valid()
      ensures id.None? ==> r == Ok(None) && unchanged(this)
      ensures id.Some? && Passport(id.value).None? ==> r == Err(IndexOutOfBounds) && unchanged(this)
      ensures id.Some? && Passport(id.value).Some? && id.value in old(wallets) ==>
        r == Ok(Some(old(wallets)[id.value])) && unchanged(this)
      ensures id.Some? && Passport(id.value).Some? && id.value !in old(wallets) ==>
        var p := Passport(id.value).value;
        && r.Ok? && r.value.Some?
        && fresh(r.value.value) && r.value.value.Valid() && r.value.value.View() == []
        && wallets == old(wallets)[id.value := r.value.value]
        && persons == old(persons)
        && personIds == if p in old(personIds) then old(personIds)[p := old(personIds)[p] + {id.value}]
                         else old(personIds)[p := {}]
      ensures r.Ok? && r.value.Some? ==> GetWallet(Some(Person(None, None, None)), id) == r.value
    {
      if id.None? {
        return Ok(None);
      }
      var passport := Passport(id.value);
      if passport.None? {
        return Err(IndexOutOfBounds);
      }
      var p := passport.value;
      if id.value in wallets {
        return Ok(Some(wallets[id.value]));
      }
      var wallet := new WalletEngine.WalletImpl();
      wallets := wallets[id.value := wallet];
      if p in personIds {
        personIds := personIds[p := personIds[p] + {id.value}];
      } else {
        personIds := personIds[p := {}];
      }
      return Ok(Some(wallet));
    }

    /** `getWallet`: null when the person or the id is null; otherwise the
        wallet stored under the id, whoever the person is. */
    function GetWallet(person: Option<Person>, id: Option<string>): (r: Option<WalletEngine.WalletImpl>)
      reads this
      ensures r.Some? <==> person.Some? && id.Some? && id.value in wallets
      ensures r.Some? ==> r.value == wallets[id.value]
    {
      if person.None? || id.None? then None
      else if id.value in wallets then Some(wallets[id.value])
      else None
    }

    /** `createIndividual`: false for a null passport; otherwise true exactly
        when the passport is new, in which case the person is stored and the
        passport gets an id set if it had none. Null names are accepted. */
    method CreateIndividual(name: Option<string>, surname: Option<string>, passport: Option<string>)
      returns (created: bool)
      requires Valid()
      modifies this
      ensures Valid()
      ensures created <==> passport.Some? && passport.value !in old(persons)
      ensures !created ==> unchanged(this)
      ensures created ==>
        var p := passport.value;
        && persons == old(persons)[p := Person(name, surname, passport)]
        && personIds == (if p in old(personIds) then old(personIds) else old(personIds)[p := {}])
        && wallets == old(wallets)
      ensures passport.Some? ==> GetIndividual(passport) == Some(persons[passport.value])
      ensures passport.Some? ==> IsExists(Some(Person(name, surname, passport)))
    {
      if passport.None? {
        return false;
      }
      var p := passport.value;
      if p in persons {
        return false;
      }
      persons := persons[p := Person(name, surname, passport)];
      if p !in personIds {
        personIds := personIds[p := {}];
      }
      return true;
    }

    /** `getIndividual`: the person stored under the passport, or null. */
    function GetIndividual(passport: Option<string>): (r: Option<Person>)
      reads this
      requires Valid()
      ensures r.Some? <==> passport.Some? && passport.value in persons
      ensures r.Some? ==> r.value == persons[passport.value] && r.value.passport == passport
    {
      if passport.None? || passport.value !in persons then None else Some(persons[passport.value])
    }

    /** `getAllIds`: null for a null person; the id set recorded for the
        person's passport, which is null (not an empty set) for a passport the
        bank has never seen; a person without a passport makes the lookup throw. */
    function GetAllIds(person: Option<Person>): (r: Result<Option<set<string>>, Fault>)
      reads this
      requires Valid()
      ensures r.Err? <==> person.Some? && person.value.passport.None?
      ensures r == Ok(None) <==>
        person.None? || (person.value.passport.Some? && person.value.passport.value !in personIds)
      ensures r.Ok? && r.value.Some? ==>
        forall id :: id in r.value.value ==> id in wallets && Passport(id) == person.value.passport
    {
      if person.None? then Ok(None)
      else if person.value.passport.None? then Err(NullPointer)
      else if person.value.passport.value in personIds then Ok(Some(personIds[person.value.passport.value]))
      else Ok(None)
    }

    /** `isExists`: whether a person with this passport has been created. */
    function IsExists(person: Option<Person>): (r: bool)
      reads this
      ensures r <==> person.Some? && person.value.passport.Some? && person.value.passport.value in persons
    {
      if person.None? || person.value.passport.None? then false
      else person.value.passport.value in persons
    }
  }

  /** The bank tests' sequence for one individual: the person is created once,
      has no wallet under `passport:subId` until it is created, and creating it
      again gives back the same wallet, whose id is then listed for the person. */
  method OwnerScenario(passport: string, subId: string)
    returns (first: bool, again: bool, before: bool, same: bool, ids: Result<Option<set<string>>, Fault>)
    requires ':' !in passport && (passport != "" || !JavaText.AllSep(subId, ':'))
    ensures first && !again && before && same
    ensures ids == Ok(Some({passport + ":" + subId}))
  {
    var bank := new RemoteBank();
    first := bank.CreateIndividual(Some("name"), Some("surname"), Some(passport));
    again := bank.CreateIndividual(Some("other"), None, Some(passport));
    var person := bank.GetIndividual(Some(passport));
    var id := passport + ":" + subId;
    PassportIsPrefix(passport, subId);
    before := bank.GetWallet(person, Some(id)).None?;
    var w1 := bank.CreateWallet(Some(id));
    assert bank.personIds[passport] == {id};
    var w2 := bank.CreateWallet(Some(id));
    same := w1.Ok? && w1.value.Some? && w1 == w2 && bank.GetWallet(person, Some(id)) == w1.value;
    ids := bank.GetAllIds(person);
  }

  /** A wallet created before its owner is never listed for the owner: the
      bank makes an empty id set for the passport, and the later
      `createIndividual` keeps that set. */
  method WalletBeforeOwner(passport: string, subId: string)
    returns (created: bool, ids: Result<Option<set<string>>, Fault>)
    requires ':' !in passport && (passport != "" || !JavaText.AllSep(subId, ':'))
    ensures created && ids == Ok(Some({}))
  {
    var bank := new RemoteBank();
    PassportIsPrefix(passport, subId);
    var w := bank.CreateWallet(Some(passport + ":" + subId));
    created := bank.CreateIndividual(None, None, Some(passport));
    ids := bank.GetAllIds(Some(Person(None, None, Some(passport))));
  }
}
