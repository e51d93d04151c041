/** The account store of `src/entities/account/model/store.ts`: an ordered
    list of accounts with add, update, remove and find-by-id, where every
    change of the list saves the whole list to a single storage slot. */
module AccountStore {
  import opened Wrappers
  import opened AccountTypes
  import opened Labels

  /** What the storage slot holds: the serialized list of accounts, or
      text that does not parse (including the empty string). */
  datatype Blob = Encoded(records: seq<Account>) | Unparsable

  /** The in-memory list and the storage slot (`None` when nothing has
      ever been stored under the key). */
  datatype Store = Store(accounts: seq<Account>, storage: Option<Blob>)

  /** The slot holds exactly the in-memory list. */
  predicate Persisted(st: Store) {
    st.storage == Some(Encoded(st.accounts))
  }

  /** A store as the application starts it: empty list over a given slot. */
  function Fresh(storage: Option<Blob>): Store {
    Store([], storage)
  }

  /** `loadAccounts`: the stored list, or the empty list when the slot is
      missing or unparsable; the failure is never propagated. */
  function LoadAccounts(st: Store): (r: Store)
    ensures r.storage == st.storage
    ensures st.storage == None ==> r.accounts == []
    ensures st.storage == Some(Unparsable) ==> r.accounts == []
    ensures st.storage.Some? && st.storage.value.Encoded? ==> r.accounts == st.storage.value.records
  {
    match st.storage
    case Some(Encoded(records)) => Store(records, st.storage)
    case _ => Store([], st.storage)
  }

  /** `saveAccounts`: never changes the list; a successful write stores it
      so that loading gives it back, a failed write leaves the slot as it
      was. `ok` stands for whether `localStorage.setItem` succeeded. */
  function SaveAccounts(st: Store, ok: bool): (r: Store)
    ensures r.accounts == st.accounts
    ensures ok ==> LoadAccounts(Fresh(r.storage)).accounts == st.accounts
    ensures !ok ==> r == st
  {
    if ok then Store(st.accounts, Some(Encoded(st.accounts))) else st
  }

  /** The account invariant on passwords: present exactly for local accounts. */
  predicate PasswordConsistent(a: Account) {
    a.password.Some? <==> a.accountType == Local
  }

  /** The record add and update build from a form: labels parsed, type and
      login copied, the password kept for local accounts and `null`
      otherwise. */
  function BuildAccount(id: string, form: AccountFormData): (a: Account)
    ensures a.id == id
    ensures a.labels == ParseLabels(form.labels)
    ensures a.accountType == form.accountType && a.login == form.login
    ensures PasswordConsistent(a)
    ensures a.password.Some? ==> a.password.value == form.password
  {
    Account(id, ParseLabels(form.labels), form.accountType, form.login,
            if form.accountType == Local then Some(form.password) else None)
  }

  /** `findIndex`: the first position holding `id`, if any. */
  function FindIndex(accounts: seq<Account>, id: string): (r: Option<nat>)
    ensures r.Some? ==> r.value < |accounts| && accounts[r.value].id == id
    ensures r.Some? ==> forall j :: 0 <= j < r.value ==> accounts[j].id != id
    ensures r.None? ==> forall j :: 0 <= j < |accounts| ==> accounts[j].id != id
  {
    if accounts == [] then None
    else if accounts[0].id == id then Some(0)
    else match FindIndex(accounts[1..], id)
      case None => None
      case Some(i) => Some(i + 1)
  }

  /** `addAccount`: appends one record built from the form under `newId`
      (the generated identifier), saves, and returns the record. */
  function AddAccount(st: Store, form: AccountFormData, newId: string, saveOk: bool)
    : (r: (Store, Account))
    ensures |r.0.accounts| == |st.accounts| + 1
    ensures r.0.accounts[..|st.accounts|] == st.accounts
    ensures r.0.accounts[|st.accounts|] == r.1
    ensures r.1 == BuildAccount(newId, form)
    ensures saveOk ==> Persisted(r.0)
    ensures !saveOk ==> r.0.storage == st.storage
  {
    var account := BuildAccount(newId, form);
    var accounts := st.accounts + [account];
    assert accounts[..|st.accounts|] == st.accounts;
    (SaveAccounts(Store(accounts, st.storage), saveOk), account)
  }

  /** `updateAccount`: at the first record holding `id`, keeps the id and
      replaces labels, type, login and password from the form, then saves;
      an unknown id changes nothing and saves nothing. */
  function UpdateAccount(st: Store, id: string, form: AccountFormData, saveOk: bool): (r: Store)
    ensures |r.accounts| == |st.accounts|
    ensures (forall j :: 0 <= j < |st.accounts| ==> st.accounts[j].id != id) ==> r == st
    ensures forall i :: 0 <= i < |st.accounts| && st.accounts[i].id == id
                        && (forall j :: 0 <= j < i ==> st.accounts[j].id != id)
                        ==> r.accounts == st.accounts[i := BuildAccount(id, form)]
    ensures saveOk && (exists j :: 0 <= j < |st.accounts| && st.accounts[j].id == id) ==> Persisted(r)
    ensures !saveOk ==> r.storage == st.storage
  {
    match FindIndex(st.accounts, id)
    case None => st
    case Some(i) =>
      var updated := BuildAccount(st.accounts[i].id, form);
      SaveAccounts(Store(st.accounts[i := updated], st.storage), saveOk)
  }

  /** `removeAccount`: deletes the first record holding `id`, keeping the
      others in order, then saves; an unknown id changes nothing and saves
      nothing. */
  function RemoveAccount(st: Store, id: string, saveOk: bool): (r: Store)
    ensures (forall j :: 0 <= j < |st.accounts| ==> st.accounts[j].id != id) ==> r == st
    ensures forall i :: 0 <= i < |st.accounts| && st.accounts[i].id == id
                        && (forall j :: 0 <= j < i ==> st.accounts[j].id != id)
                        ==> r.accounts == st.accounts[..i] + st.accounts[i + 1..]
    ensures saveOk && (exists j :: 0 <= j < |st.accounts| && st.accounts[j].id == id) ==> Persisted(r)
    ensures !saveOk ==> r.storage == st.storage
  {
    match FindIndex(st.accounts, id)
    case None => st
    case Some(i) =>
      SaveAccounts(Store(st.accounts[..i] + st.accounts[i + 1..], st.storage), saveOk)
  }

  /** `getAccountById`: the first record holding `id`, or none. */
  function GetAccountById(st: Store, id: string): (r: Option<Account>)
    ensures r.None? <==> forall j :: 0 <= j < |st.accounts| ==> st.accounts[j].id != id
    ensures forall i :: 0 <= i < |st.accounts| && st.accounts[i].id == id
                        && (forall j :: 0 <= j < i ==> st.accounts[j].id != id)
                        ==> r == Some(st.accounts[i])
  {
    match FindIndex(st.accounts, id)
    case None => None
    case Some(i) => Some(st.accounts[i])
  }

  /** No two records share an id. */
  predicate UniqueIds(accounts: seq<Account>) {
    forall i, j :: 0 <= i < j < |accounts| ==> accounts[i].id != accounts[j].id
  }

  predicate AllPasswordConsistent(accounts: seq<Account>) {
    forall i :: 0 <= i < |accounts| ==> PasswordConsistent(accounts[i])
  }

  /** Adding under an id no record holds keeps ids unique. */
  lemma AddFreshIdKeepsIdsUnique(st: Store, form: AccountFormData, newId: string, saveOk: bool)
    requires UniqueIds(st.accounts)
    requires forall j :: 0 <= j < |st.accounts| ==> st.accounts[j].id != newId
    ensures UniqueIds(AddAccount(st, form, newId, saveOk).0.accounts)
  {
  }

  /** Updating never changes any record's id, so unique ids stay unique. */
  lemma UpdateKeepsIds(st: Store, id: string, form: AccountFormData, saveOk: bool)
    ensures var r := UpdateAccount(st, id, form, saveOk);
            forall j :: 0 <= j < |st.accounts| ==> r.accounts[j].id == st.accounts[j].id
    ensures UniqueIds(st.accounts) ==> UniqueIds(UpdateAccount(st, id, form, saveOk).accounts)
  {
  }

  /** With unique ids, a removed id can no longer be found. */
  lemma RemoveThenFindNone(st: Store, id: string, saveOk: bool)
    requires UniqueIds(st.accounts)
    ensures GetAccountById(RemoveAccount(st, id, saveOk), id) == None
  {
  }

  /** Add, update and remove keep every stored password consistent with
      its account type. */
  lemma MutationsKeepPasswordsConsistent(st: Store, id: string, form: AccountFormData, saveOk: bool)
    requires AllPasswordConsistent(st.accounts)
    ensures AllPasswordConsistent(AddAccount(st, form, id, saveOk).0.accounts)
    ensures AllPasswordConsistent(UpdateAccount(st, id, form, saveOk).accounts)
    ensures AllPasswordConsistent(RemoveAccount(st, id, saveOk).accounts)
  {
    AddKeepsPasswordsConsistent(st, form, id, saveOk);
    UpdateKeepsPasswordsConsistent(st, id, form, saveOk);
    RemoveKeepsPasswordsConsistent(st, id, saveOk);
  }

  lemma AddKeepsPasswordsConsistent(st: Store, form: AccountFormData, id: string, saveOk: bool)
    requires AllPasswordConsistent(st.accounts)
    ensures AllPasswordConsistent(AddAccount(st, form, id, saveOk).0.accounts)
  {
  }

  lemma UpdateKeepsPasswordsConsistent(st: Store, id: string, form: AccountFormData, saveOk: bool)
    requires AllPasswordConsistent(st.accounts)
    ensures AllPasswordConsistent(UpdateAccount(st, id, form, saveOk).accounts)
  {
  }

  lemma RemoveKeepsPasswordsConsistent(st: Store, id: string, saveOk: bool)
    requires AllPasswordConsistent(st.accounts)
    ensures AllPasswordConsistent(RemoveAccount(st, id, saveOk).accounts)
  {
    RemoveKeepsOthers(st, id, saveOk);
  }

  /** Removal keeps a subsequence: every remaining record was there before. */
  lemma RemoveKeepsOthers(st: Store, id: string, saveOk: bool)
    ensures forall j :: 0 <= j < |RemoveAccount(st, id, saveOk).accounts|
              ==> RemoveAccount(st, id, saveOk).accounts[j] in st.accounts
  {
  }

  /** After a successful add, a store freshly loaded from the same slot
      holds the same list, ending with the added record. */
  lemma ReloadAfterAdd(st: Store, form: AccountFormData, newId: string)
    ensures var (st', account) := AddAccount(st, form, newId, true);
            && LoadAccounts(Fresh(st'.storage)).accounts == st'.accounts
            && account in LoadAccounts(Fresh(st'.storage)).accounts
  {
  }

  /** An LDAP account never keeps the password typed into the form. */
  lemma LdapDropsPassword(st: Store, form: AccountFormData, newId: string, saveOk: bool)
    requires form.accountType == Ldap
    ensures AddAccount(st, form, newId, saveOk).1.password == None
  {
  }

  /** Adding an LDAP account labelled "vpn; prod" for "alice" yields two
      labels, the login as typed and no password. */
  lemma AddLdapScenario(st: Store, newId: string, saveOk: bool)
    ensures var a := AddAccount(st, AccountFormData("vpn; prod", Ldap, "alice", "ignored"), newId, saveOk).1;
            a == Account(newId, [Label("vpn"), Label("prod")], Ldap, "alice", None)
  {
    var ls := [Label("vpn"), Label("prod")];
    assert ParseLabels("vpn; prod") == ls by {
      assert FormatLabels(ls) == "vpn; prod" by {
        assert Texts(ls) == ["vpn", "prod"];
        assert Texts(ls)[1..] == ["prod"];
      }
      assert WellFormed(ls[0]);
      assert WellFormed(ls[1]);
      RoundTrip(ls);
    }
  }
}
