/** The records shared by the label codec, the validator and the store. */
module AccountTypes {
  import opened Wrappers

  /** One label attached to an account. */
  datatype Label = Label(text: string)

  /** The two account kinds: directory-backed (`"LDAP"`) and local
      (`"Локальная"`), whose password is stored with the account. */
  datatype AccountType = Ldap | Local

  /** A stored account; `password` is `None` for JavaScript `null`. */
  datatype Account = Account(
    id: string,
    labels: seq<Label>,
    accountType: AccountType,
    login: string,
    password: Option<string>)

  /** Raw form input: the labels as one `;`-delimited string. */
  datatype AccountFormData = AccountFormData(
    labels: string,
    accountType: AccountType,
    login: string,
    password: string)

  /** The keys an error map may carry. */
  datatype Field = LabelsKey | LoginKey | PasswordKey | TypeKey

  /** A partial error map. A key that is present may hold a message or
      `undefined` (`None`); a present key with `undefined` is distinct
      from an absent key. */
  type ValidationErrors = map<Field, Option<string>>
}
