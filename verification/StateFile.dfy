/** The saved state, printed and loaded. */
module StateFiles {
  import opened Common
  import opened Decimal
  import opened JsonFields
  import opened JsonRows
  import opened JsonText
  import LocalFiles

  datatype ProviderKind = GoogleDrive | HomeStorage
  datatype LocalState = Present | Missing | NotDownloaded
  datatype TaskState = Queued | Downloading | Paused | Verifying | Installing | Completed | Failed | Cancelled
  type StorageKind = LocalFiles.StorageKind

  datatype Account = Account(id: string, email: string, displayName: string)

  datatype Provider = Provider(id: string, name: string, baseUrl: string, accessToken: string, lastFolderId: string,
                               kind: ProviderKind, canManageCatalog: bool)

  datatype Task = Task(id: string, providerId: string, accountId: string, remoteId: string, displayName: string,
                       localPath: string, md5: string, sha256: string, revision: string, etag: string,
                       expectedSize: nat, committedBytes: nat, state: TaskState, localState: LocalState,
                       storageKind: StorageKind, installAfterDownload: bool, error: string)

  datatype Item = Item(id: string, providerId: string, accountId: string, remoteId: string, name: string,
                       localPath: string, md5: string, sha256: string, size: nat, localState: LocalState,
                       storageKind: StorageKind)

  datatype State = State(serviceUrl: string, consolePublicKey: string, sessionToken: string, lastAccountId: string,
                         activeProviderId: string, language: string,
                         accounts: seq<Account>, providers: seq<Provider>, tasks: seq<Task>, library: seq<Item>)

  const GOOGLE: Provider := Provider("google-drive", "", "", "", "root", GoogleDrive, false)
  const EMPTY: State := State("", "", "", "", "google-drive", "en-US", [], [GOOGLE], [], [])

  // ----- names

  function LocalStateName(s: LocalState): string {
    match s
    case Present => "present"
    case Missing => "missing"
    case NotDownloaded => "notDownloaded"
  }

  function ParseLocalState(v: string): LocalState {
    if v == "present" then Present else if v == "missing" then Missing else NotDownloaded
  }

  function TaskStateName(s: TaskState): string {
    match s
    case Queued => "queued"
    case Downloading => "downloading"
    case Paused => "paused"
    case Verifying => "verifying"
    case Installing => "installing"
    case Completed => "completed"
    case Failed => "failed"
    case Cancelled => "cancelled"
  }

  function ParseTaskState(v: string): TaskState {
    if v == "queued" then Queued
    else if v == "downloading" then Downloading
    else if v == "verifying" then Verifying
    else if v == "installing" then Installing
    else if v == "completed" then Completed
    else if v == "failed" then Failed
    else if v == "cancelled" then Cancelled
    else Paused
  }

  function KindName(k: ProviderKind): string {
    if k.GoogleDrive? then "google-drive" else "home-storage"
  }

  function ParseKind(v: string): ProviderKind {
    if v == "google-drive" then GoogleDrive else HomeStorage
  }

  function StorageName(k: StorageKind): string {
    if k.Concatenated? then "concatenated" else "regular"
  }

  function ParseStorage(v: string): StorageKind {
    if v == "concatenated" then LocalFiles.Concatenated else LocalFiles.Regular
  }

  /** The code of the language a code stands for. */
  function Supported(code: string): string {
    if code == "pt-BR" then "pt-BR" else if code == "es-ES" then "es-ES" else "en-US"
  }

  lemma NamesReadBack()
    ensures forall s :: ParseLocalState(LocalStateName(s)) == s
    ensures forall s :: ParseTaskState(TaskStateName(s)) == s
    ensures forall k :: ParseKind(KindName(k)) == k
    ensures forall k :: ParseStorage(StorageName(k)) == k
  {
    forall s
      ensures ParseTaskState(TaskStateName(s)) == s
    {
      TaskStateReadBack(s);
    }
  }

  lemma TaskStateReadBack(s: TaskState)
    ensures ParseTaskState(TaskStateName(s)) == s
  {
  }

  // ----- printing

  const ACCOUNT_KEYS: seq<string> := ["id", "email", "displayName"]
  const PROVIDER_KEYS: seq<string> := ["id", "kind", "name", "baseUrl", "accessToken", "lastFolderId",
      "canManageCatalog"]
  const TASK_KEYS: seq<string> :=
    ["id", "providerId", "accountId", "remoteId", "displayName", "localPath", "md5", "sha256", "revision", "etag",
     "expectedSize", "committedBytes", "state", "localState", "storageKind", "installAfterDownload", "error"]
  const ITEM_KEYS: seq<string> :=
    ["id", "providerId", "accountId", "remoteId", "name", "localPath", "md5", "sha256", "size", "localState",
        "storageKind"]
  const HEADER_KEYS: seq<string> :=
    ["schemaVersion", "serviceUrl", "consolePublicKey", "sessionToken", "lastAccountId", "activeProviderId", "language"]

  function AccountFields(a: Account): seq<Field> {
    [Quoted("id", a.id), Quoted("email", a.email), Quoted("displayName", a.displayName)]
  }

  function ProviderFields(p: Provider): seq<Field> {
    [Quoted("id", p.id), Quoted("kind", KindName(p.kind)), Quoted("name", p.name), Quoted("baseUrl", p.baseUrl),
     Quoted("accessToken", p.accessToken), Quoted("lastFolderId", p.lastFolderId),
     Flag("canManageCatalog", p.canManageCatalog)]
  }

  function TaskFields(t: Task): seq<Field> {
    [Quoted("id", t.id), Quoted("providerId", t.providerId), Quoted("accountId", t.accountId),
     Quoted("remoteId", t.remoteId), Quoted("displayName", t.displayName), Quoted("localPath", t.localPath),
     Quoted("md5", t.md5), Quoted("sha256", t.sha256), Quoted("revision", t.revision), Quoted("etag", t.etag),
     Number("expectedSize", t.expectedSize),
     Number("committedBytes", t.committedBytes), Quoted("state", TaskStateName(t.state)),
     Quoted("localState", LocalStateName(t.localState)), Quoted("storageKind", StorageName(t.storageKind)),
     Flag("installAfterDownload", t.installAfterDownload), Quoted("error", t.error)]
  }

  function ItemFields(i: Item): seq<Field> {
    [Quoted("id", i.id), Quoted("providerId", i.providerId), Quoted("accountId", i.accountId),
     Quoted("remoteId", i.remoteId), Quoted("name", i.name), Quoted("localPath", i.localPath), Quoted("md5", i.md5),
     Quoted("sha256", i.sha256), Number("size", i.size), Quoted("localState", LocalStateName(i.localState)),
     Quoted("storageKind", StorageName(i.storageKind))]
  }

  function Header(s: State): seq<Field> {
    [Number("schemaVersion", 8), Quoted("serviceUrl", s.serviceUrl), Quoted("consolePublicKey", s.consolePublicKey),
     Quoted("sessionToken", s.sessionToken), Quoted("lastAccountId", s.lastAccountId),
     Quoted("activeProviderId", s.activeProviderId), Quoted("language", Supported(s.language))]
  }

  function Rows<T>(values: seq<T>, fields: T -> seq<Field>): (r: seq<seq<Field>>)
    ensures |r| == |values| && forall i :: 0 <= i < |r| ==> r[i] == fields(values[i])
  {
    if values == [] then [] else Rows(values[..|values| - 1], fields) + [fields(values[|values| - 1])]
  }

  function Lists(s: State): seq<List> {
    [List("accounts", Rows(s.accounts, AccountFields)), List("providers", Rows(s.providers, ProviderFields)),
     List("tasks", Rows(s.tasks, TaskFields)), List("library", Rows(s.library, ItemFields))]
  }

  /** What `save` writes. */
  function SaveText(s: State): string {
    Text(FileTokens(Header(s), Lists(s)))
  }

  // ----- loading

  function ReadAccount(row: string): Account {
    Account(StringField(row, "id"), StringField(row, "email"), StringField(row, "displayName"))
  }

  function ReadProvider(row: string): Provider {
    Provider(StringField(row, "id"), StringField(row, "name"), StringField(row, "baseUrl"),
             StringField(row, "accessToken"), StringField(row, "lastFolderId"), ParseKind(StringField(row, "kind")),
             BoolField(row, "canManageCatalog", false))
  }

  function ReadTask(row: string, schema: int): Task {
    Task(StringField(row, "id"), if schema >= 5 then StringField(row, "providerId") else "google-drive",
         StringField(row, "accountId"), StringField(row, "remoteId"), StringField(row, "displayName"),
         StringField(row, "localPath"), StringField(row, "md5"), StringField(row, "sha256"),
         StringField(row, "revision"), StringField(row, "etag"), NumberField(row, "expectedSize", 0),
         NumberField(row, "committedBytes", 0), ParseTaskState(StringField(row, "state")),
         ParseLocalState(StringField(row, "localState")), ParseStorage(StringField(row, "storageKind")),
         BoolField(row, "installAfterDownload", false), StringField(row, "error"))
  }

  function ReadItem(row: string, schema: int): Item {
    Item(StringField(row, "id"), if schema >= 5 then StringField(row, "providerId") else "google-drive",
         StringField(row, "accountId"),
         StringField(row, "remoteId"), StringField(row, "name"), StringField(row, "localPath"), StringField(row, "md5"),
         StringField(row, "sha256"), NumberField(row, "size", 0), ParseLocalState(StringField(row, "localState")),
         ParseStorage(StringField(row, "storageKind")))
  }

  /** The records that are kept. */
  function Accounts(rows: seq<string>): seq<Account> {
    if rows == [] then []
    else
      var a := ReadAccount(rows[|rows| - 1]);
      Accounts(rows[..|rows| - 1]) + if a.id != [] then [a] else []
  }

  function Providers(rows: seq<string>): seq<Provider> {
    if rows == [] then []
    else
      var p := ReadProvider(rows[|rows| - 1]);
      Providers(rows[..|rows| - 1]) + if p.id != [] then [p] else []
  }

  function Tasks(rows: seq<string>, schema: int): seq<Task> {
    if rows == [] then []
    else
      var t := ReadTask(rows[|rows| - 1], schema);
      Tasks(rows[..|rows| - 1], schema) + if t.id != [] then [t] else []
  }

  function Items(rows: seq<string>, schema: int): seq<Item> {
    if rows == [] then []
    else
      var row := rows[|rows| - 1];
      var i := ReadItem(row, schema);
      Items(rows[..|rows| - 1], schema)
      + if i.id != [] && StringField(row, "localState") != "removedAfterInstall" then [i] else []
  }

  predicate HasGoogle(providers: seq<Provider>) {
    exists i :: 0 <= i < |providers| && providers[i].kind.GoogleDrive?
  }

  /** The same, with the first Google provider changed. */
  function OnGoogle(providers: seq<Provider>, change: Provider -> Provider): (r: seq<Provider>)
    ensures |r| == |providers|
  {
    if providers == [] then []
    else if providers[0].kind.GoogleDrive? then [change(providers[0])] + providers[1..]
    else [providers[0]] + OnGoogle(providers[1..], change)
  }

  function WithGoogle(providers: seq<Provider>): seq<Provider> {
    if HasGoogle(providers) then providers else [GOOGLE] + providers
  }

  /** An older file's single folder goes to the Google provider, unless it has one of its own. */
  function WithLegacy(p: Provider, legacy: string): Provider {
    if legacy != [] && (p.lastFolderId == [] || p.lastFolderId == "root") then p.(lastFolderId := legacy) else p
  }

  function WithoutSelected(p: Provider): Provider {
    if p.lastFolderId == [] || p.lastFolderId == "selected" then p.(lastFolderId := "root") else p
  }

  function AtRoot(p: Provider): Provider {
    p.(lastFolderId := "root")
  }

  /** How the provider list that was read is put in order. */
  function Settled(providers: seq<Provider>, legacy: string): seq<Provider> {
    OnGoogle(OnGoogle(WithGoogle(providers), p => WithLegacy(p, legacy)), WithoutSelected)
  }

  /** A cast of a 64-bit number to `int`. */
  function AsInt(n: nat): int {
    var low := n % 0x1_0000_0000;
    if low >= 0x8000_0000 then low - 0x1_0000_0000 else low
  }

  /** What the readers get out of a file. */
  datatype Parsed = Parsed(serviceUrl: string, consolePublicKey: string, sessionToken: string, lastAccountId: string,
                           active: string, language: string, legacy: string,
                           accounts: seq<Account>, providers: seq<Provider>, tasks: seq<Task>, library: seq<Item>)

  function Parse(json: string, schema: int): Parsed {
    Parsed(StringField(json, "serviceUrl"), StringField(json, "consolePublicKey"), StringField(json, "sessionToken"),
           StringField(json, "lastAccountId"), StringField(json, "activeProviderId"), StringField(json, "language"),
           StringField(json, "lastFolderId"), Accounts(ObjectRows(json, "accounts")),
           Providers(ObjectRows(json, "providers")), Tasks(ObjectRows(json, "tasks"), schema),
           Items(ObjectRows(json, "library"), schema))
  }

  /** What each version of the file format makes of it. */
  function Migrated(p: Parsed, schema: int): State {
    var active := if schema >= 5 then p.active else "google-drive";
    var providers := Settled(if schema >= 5 then p.providers else EMPTY.providers, p.legacy);
    State(p.serviceUrl, p.consolePublicKey,
          if schema == 7 then [] else p.sessionToken,
          if schema == 7 then [] else p.lastAccountId,
          if active == [] then "google-drive" else active,
          Supported(p.language),
          if schema == 7 then [] else p.accounts,
          if schema == 7 then OnGoogle(providers, AtRoot) else providers,
          if schema >= 2 then p.tasks else [],
          p.library)
  }

  /** `load`, once a file could be read. */
  function LoadText(json: string): State {
    var schema := AsInt(NumberField(json, "schemaVersion", 0));
    if schema < 1 || schema > 8 then EMPTY else Migrated(Parse(json, schema), schema)
  }

  // ----- records come back

  predicate Keyed(fields: seq<Field>, keys: seq<string>) {
    |fields| == |keys| && forall i :: 0 <= i < |fields| ==> fields[i].key == keys[i]
  }

  predicate Names(keys: seq<string>) {
    forall i :: 0 <= i < |keys| ==> Name(keys[i])
  }

  lemma KeysDistinct()
    ensures Distinct(ACCOUNT_KEYS) && Distinct(PROVIDER_KEYS)
    ensures Distinct(HEADER_KEYS) && Distinct(ITEM_KEYS)
  {
  }

  lemma TaskKeysDistinct()
    ensures Distinct(TASK_KEYS)
  {
  }

  lemma SharedNames()
    ensures Name("id") && Name("providerId") && Name("accountId") && Name("remoteId") && Name("name")
            && Name("localPath")
    ensures Name("md5") && Name("sha256") && Name("localState") && Name("storageKind")
  {
  }

  lemma TaskNames()
    ensures Name("displayName") && Name("revision") && Name("etag") && Name("expectedSize") && Name("committedBytes")
    ensures Name("state") && Name("installAfterDownload") && Name("error")
  {
  }

  lemma OtherNames()
    ensures Name("email") && Name("kind") && Name("baseUrl") && Name("accessToken") && Name("lastFolderId")
    ensures Name("canManageCatalog") && Name("size")
  {
  }

  lemma HeaderNames()
    ensures Name("schemaVersion") && Name("serviceUrl") && Name("consolePublicKey") && Name("sessionToken")
    ensures Name("lastAccountId") && Name("activeProviderId") && Name("language")
  {
  }

  lemma ListNames()
    ensures Name("accounts") && Name("providers") && Name("tasks") && Name("library")
  {
  }

  lemma KeysAreNames()
    ensures Names(ACCOUNT_KEYS) && Names(PROVIDER_KEYS) && Names(TASK_KEYS) && Names(ITEM_KEYS) && Names(HEADER_KEYS)
  {
    SharedNames();
    TaskNames();
    OtherNames();
    HeaderNames();
  }

  lemma KeyedLeads(fields: seq<Field>, keys: seq<string>)
    requires Keyed(fields, keys) && Distinct(keys) && Names(keys)
    ensures forall i :: 0 <= i < |fields| ==> Leads(fields, i) && Name(fields[i].key)
  {
    forall i | 0 <= i < |fields|
      ensures Leads(fields, i)
    {
      forall j | 0 <= j < i
        ensures fields[j].key != fields[i].key
      {
        assert keys[j] != keys[i];
      }
    }
  }

  lemma AccountFieldsOk(a: Account)
    ensures FieldsOk(AccountFields(a)) && forall i :: 0 <= i < 3 ==> Leads(AccountFields(a), i)
  {
    KeysDistinct();
    KeysAreNames();
    KeyedLeads(AccountFields(a), ACCOUNT_KEYS);
  }

  lemma AccountBack(a: Account)
    ensures ReadAccount(RowText(AccountFields(a))) == a
  {
    var f := AccountFields(a);
    AccountFieldsOk(a);
    NamedInRow(f, 0, "id", a.id);
    NamedInRow(f, 1, "email", a.email);
    NamedInRow(f, 2, "displayName", a.displayName);
  }

  lemma ProviderFieldsOk(p: Provider)
    ensures FieldsOk(ProviderFields(p)) && forall i :: 0 <= i < 7 ==> Leads(ProviderFields(p), i)
  {
    KeysDistinct();
    KeysAreNames();
    KeyedLeads(ProviderFields(p), PROVIDER_KEYS);
  }

  lemma ProviderBack(p: Provider)
    ensures ReadProvider(RowText(ProviderFields(p))) == p
  {
    var f := ProviderFields(p);
    ProviderFieldsOk(p);
    NamesReadBack();
    NamedInRow(f, 0, "id", p.id);
    NamedInRow(f, 1, "kind", KindName(p.kind));
    NamedInRow(f, 2, "name", p.name);
    NamedInRow(f, 3, "baseUrl", p.baseUrl);
    NamedInRow(f, 4, "accessToken", p.accessToken);
    NamedInRow(f, 5, "lastFolderId", p.lastFolderId);
    FlagInRow(f, 6, false);
  }

  predicate TaskSized(t: Task) {
    t.expectedSize <= U64_MAX && t.committedBytes <= U64_MAX
  }

  lemma TaskFieldsOk(t: Task)
    requires TaskSized(t)
    ensures FieldsOk(TaskFields(t)) && forall i :: 0 <= i < 17 ==> Leads(TaskFields(t), i)
  {
    TaskKeysDistinct();
    KeysAreNames();
    KeyedLeads(TaskFields(t), TASK_KEYS);
  }

  lemma TaskNamesBack(t: Task, row: string)
    requires TaskSized(t) && row == RowText(TaskFields(t))
    ensures StringField(row, "id") == t.id && StringField(row, "providerId") == t.providerId
    ensures StringField(row, "accountId") == t.accountId && StringField(row, "remoteId") == t.remoteId
    ensures StringField(row, "displayName") == t.displayName && StringField(row, "localPath") == t.localPath
  {
    var f := TaskFields(t);
    TaskFieldsOk(t);
    NamedInRow(f, 0, "id", t.id);
    NamedInRow(f, 1, "providerId", t.providerId);
    NamedInRow(f, 2, "accountId", t.accountId);
    NamedInRow(f, 3, "remoteId", t.remoteId);
    NamedInRow(f, 4, "displayName", t.displayName);
    NamedInRow(f, 5, "localPath", t.localPath);
  }

  lemma TaskContentBack(t: Task, row: string)
    requires TaskSized(t) && row == RowText(TaskFields(t))
    ensures StringField(row, "md5") == t.md5 && StringField(row, "sha256") == t.sha256
    ensures StringField(row, "revision") == t.revision && StringField(row, "etag") == t.etag
    ensures NumberField(row, "expectedSize", 0) == t.expectedSize
            && NumberField(row, "committedBytes", 0) == t.committedBytes
  {
    var f := TaskFields(t);
    TaskFieldsOk(t);
    NamedInRow(f, 6, "md5", t.md5);
    NamedInRow(f, 7, "sha256", t.sha256);
    NamedInRow(f, 8, "revision", t.revision);
    NamedInRow(f, 9, "etag", t.etag);
    NumberInRow(f, 10, 0);
    NumberInRow(f, 11, 0);
  }

  lemma TaskStateBack(t: Task, row: string)
    requires TaskSized(t) && row == RowText(TaskFields(t))
    ensures StringField(row, "state") == TaskStateName(t.state)
            && StringField(row, "localState") == LocalStateName(t.localState)
    ensures StringField(row, "storageKind") == StorageName(t.storageKind)
    ensures BoolField(row, "installAfterDownload", false) == t.installAfterDownload
            && StringField(row, "error") == t.error
  {
    var f := TaskFields(t);
    TaskFieldsOk(t);
    NamedInRow(f, 12, "state", TaskStateName(t.state));
    NamedInRow(f, 13, "localState", LocalStateName(t.localState));
    NamedInRow(f, 14, "storageKind", StorageName(t.storageKind));
    FlagInRow(f, 15, false);
    NamedInRow(f, 16, "error", t.error);
  }

  lemma TaskBack(t: Task)
    requires TaskSized(t)
    ensures ReadTask(RowText(TaskFields(t)), 8) == t
  {
    var row := RowText(TaskFields(t));
    NamesReadBack();
    TaskNamesBack(t, row);
    TaskContentBack(t, row);
    TaskStateBack(t, row);
  }

  predicate ItemSized(i: Item) {
    i.size <= U64_MAX
  }

  lemma ItemFieldsOk(i: Item)
    requires ItemSized(i)
    ensures FieldsOk(ItemFields(i)) && forall k :: 0 <= k < 11 ==> Leads(ItemFields(i), k)
  {
    KeysDistinct();
    KeysAreNames();
    KeyedLeads(ItemFields(i), ITEM_KEYS);
  }

  lemma ItemNamesBack(i: Item, row: string)
    requires ItemSized(i) && row == RowText(ItemFields(i))
    ensures StringField(row, "id") == i.id && StringField(row, "providerId") == i.providerId
    ensures StringField(row, "accountId") == i.accountId && StringField(row, "remoteId") == i.remoteId
    ensures StringField(row, "name") == i.name && StringField(row, "localPath") == i.localPath
  {
    var f := ItemFields(i);
    ItemFieldsOk(i);
    NamedInRow(f, 0, "id", i.id);
    NamedInRow(f, 1, "providerId", i.providerId);
    NamedInRow(f, 2, "accountId", i.accountId);
    NamedInRow(f, 3, "remoteId", i.remoteId);
    NamedInRow(f, 4, "name", i.name);
    NamedInRow(f, 5, "localPath", i.localPath);
  }

  lemma ItemContentBack(i: Item, row: string)
    requires ItemSized(i) && row == RowText(ItemFields(i))
    ensures StringField(row, "md5") == i.md5 && StringField(row, "sha256") == i.sha256
            && NumberField(row, "size", 0) == i.size
    ensures StringField(row, "localState") == LocalStateName(i.localState)
            && StringField(row, "storageKind") == StorageName(i.storageKind)
  {
    var f := ItemFields(i);
    ItemFieldsOk(i);
    NamedInRow(f, 6, "md5", i.md5);
    NamedInRow(f, 7, "sha256", i.sha256);
    NumberInRow(f, 8, 0);
    NamedInRow(f, 9, "localState", LocalStateName(i.localState));
    NamedInRow(f, 10, "storageKind", StorageName(i.storageKind));
  }

  lemma ItemBack(i: Item)
    requires ItemSized(i)
    ensures ReadItem(RowText(ItemFields(i)), 8) == i
    ensures StringField(RowText(ItemFields(i)), "localState") != "removedAfterInstall"
  {
    var row := RowText(ItemFields(i));
    NamesReadBack();
    ItemNamesBack(i, row);
    ItemContentBack(i, row);
    NeverRemoved(i.localState);
  }

  lemma NeverRemoved(s: LocalState)
    ensures LocalStateName(s) != "removedAfterInstall"
  {
  }

  // ----- files come back

  /** Every number fits into 64 bits. */
  predicate Sized(s: State) {
    && (forall i :: 0 <= i < |s.tasks| ==> TaskSized(s.tasks[i]))
    && (forall i :: 0 <= i < |s.library| ==> ItemSized(s.library[i]))
  }

  lemma HeaderOk(s: State)
    ensures FieldsOk(Header(s)) && forall i :: 0 <= i < 7 ==> Leads(Header(s), i)
  {
    KeysDistinct();
    KeysAreNames();
    KeyedLeads(Header(s), HEADER_KEYS);
  }

  lemma ListsAreOk(s: State)
    requires Sized(s)
    ensures ListsOk(Lists(s))
  {
    ListNames();
    forall i | 0 <= i < |s.accounts|
      ensures FieldsOk(AccountFields(s.accounts[i]))
    {
      AccountFieldsOk(s.accounts[i]);
    }
    forall i | 0 <= i < |s.providers|
      ensures FieldsOk(ProviderFields(s.providers[i]))
    {
      ProviderFieldsOk(s.providers[i]);
    }
    forall i | 0 <= i < |s.tasks|
      ensures FieldsOk(TaskFields(s.tasks[i]))
    {
      TaskFieldsOk(s.tasks[i]);
    }
    forall i | 0 <= i < |s.library|
      ensures FieldsOk(ItemFields(s.library[i]))
    {
      ItemFieldsOk(s.library[i]);
    }
  }

  lemma HeaderIsNoList(s: State)
    ensures forall i :: 0 <= i < |HEADER_KEYS| ==> NotAList(Lists(s), HEADER_KEYS[i])
    ensures NotAList(Lists(s), "lastFolderId")
  {
  }

  lemma {:induction false} HeaderQuoted(s: State, i: nat, key: string, value: string)
    requires Sized(s) && i < 7 && Header(s)[i] == Quoted(key, value)
    ensures StringField(SaveText(s), key) == value
  {
    var tokens := FileTokens(Header(s), Lists(s));
    HeaderOk(s);
    ListsAreOk(s);
    HeaderIsNoList(s);
    assert key == HEADER_KEYS[i];
    FileFormed(Header(s), Lists(s));
    BehindFile(Header(s), Lists(s), key, "\"");
    assert "\"" <= TokenText(ValueToken(Header(s)[i]));
    FirstAt(Header(s), i, "\"");
    ReadsQuoted(tokens, key, Header(s)[i]);
  }

  lemma {:induction false} SchemaBack(s: State)
    requires Sized(s)
    ensures NumberField(SaveText(s), "schemaVersion", 0) == 8
  {
    HeaderOk(s);
    ListsAreOk(s);
    HeaderIsNoList(s);
    assert HEADER_KEYS[0] == "schemaVersion";
    FileFormed(Header(s), Lists(s));
    BehindFile(Header(s), Lists(s), "schemaVersion", "");
    FirstAt(Header(s), 0, "");
    ReadsNumber(FileTokens(Header(s), Lists(s)), "schemaVersion", Header(s)[0], 0);
  }

  // ----- the folder of an older file is looked for everywhere

  predicate Without(fields: seq<Field>, key: string) {
    forall i :: 0 <= i < |fields| ==> fields[i].key != key
  }

  lemma {:induction false} FirstNowhere(fields: seq<Field>, key: string, opening: string)
    requires Without(fields, key)
    ensures First(fields, key, opening) == None
  {
    if fields != [] { FirstNowhere(fields[1..], key, opening); }
  }

  lemma {:induction false} NowhereInRows(rows: seq<seq<Field>>, key: string, opening: string)
    requires forall i :: 0 <= i < |rows| ==> Without(rows[i], key)
    ensures FirstInRows(rows, key, opening) == None
  {
    if rows != [] {
      FirstNowhere(rows[0], key, opening);
      NowhereInRows(rows[1..], key, opening);
    }
  }

  lemma OnlyProvidersHaveFolders(a: Account, t: Task, i: Item, s: State)
    ensures Without(AccountFields(a), "lastFolderId") && Without(ItemFields(i), "lastFolderId")
            && Without(Header(s), "lastFolderId")
    ensures Without(TaskFields(t), "lastFolderId")
  {
  }

  /** The first provider's folder: what the search for an older file's folder really finds. */
  function FirstFolder(providers: seq<Provider>): string {
    if providers == [] then [] else providers[0].lastFolderId
  }

  lemma {:induction false} FolderNowhereElse(s: State)
    ensures First(Header(s), "lastFolderId", "\"") == None
    ensures FirstInRows(Lists(s)[0].rows, "lastFolderId", "\"") == None
    ensures FirstInRows(Lists(s)[2].rows, "lastFolderId", "\"") == None
            && FirstInRows(Lists(s)[3].rows, "lastFolderId", "\"") == None
  {
    var key, lists := "lastFolderId", Lists(s);
    forall a, t, i
      ensures Without(AccountFields(a), key) && Without(TaskFields(t), key) && Without(ItemFields(i), key)
    {
      OnlyProvidersHaveFolders(a, t, i, s);
    }
    OnlyProvidersHaveFolders(Account("", "", ""), ANY_TASK, ANY_ITEM, s);
    FirstNowhere(Header(s), key, "\"");
    NowhereInRows(lists[0].rows, key, "\"");
    NowhereInRows(lists[2].rows, key, "\"");
    NowhereInRows(lists[3].rows, key, "\"");
  }

  lemma {:induction false} FolderInLists(s: State)
    ensures FirstInFile(Header(s), Lists(s), "lastFolderId", "\"")
         == if s.providers == [] then None else Some(Quoted("lastFolderId", s.providers[0].lastFolderId))
  {
    FolderNowhereElse(s);
    if s.providers != [] { FolderOfProvider(s.providers[0]); }
    FourLists(Lists(s), "lastFolderId", "\"");
  }

  const ANY_TASK: Task := Task("", "", "", "", "", "", "", "", "", "", 0, 0, Queued, NotDownloaded, LocalFiles.Regular,
      false, "")
  const ANY_ITEM: Item := Item("", "", "", "", "", "", "", "", 0, NotDownloaded, LocalFiles.Regular)

  lemma {:induction false} FolderOfProvider(p: Provider)
    ensures First(ProviderFields(p), "lastFolderId", "\"") == Some(Quoted("lastFolderId", p.lastFolderId))
  {
    ProviderFieldsOk(p);
    assert "\"" <= TokenText(ValueToken(ProviderFields(p)[5]));
    FirstAt(ProviderFields(p), 5, "\"");
  }

  lemma {:induction false} FourLists(lists: seq<List>, key: string, opening: string)
    requires |lists| == 4
    requires FirstInRows(lists[0].rows, key, opening) == None
    requires FirstInRows(lists[2].rows, key, opening) == None && FirstInRows(lists[3].rows, key, opening) == None
    ensures FirstInLists(lists, key, opening)
         == if lists[1].rows == [] then None
            else FirstInRows(lists[1].rows, key, opening)
  {
    assert lists[1..][1..] == lists[2..] && lists[2..][1..] == lists[3..] && lists[3..][1..] == [];
    assert FirstInLists(lists[3..], key, opening) == None;
    assert FirstInLists(lists[2..], key, opening) == None;
    assert lists[1..][0] == lists[1];
  }

  lemma {:induction false} FolderBack(s: State)
    requires Sized(s)
    ensures StringField(SaveText(s), "lastFolderId") == FirstFolder(s.providers)
  {
    var tokens, key := FileTokens(Header(s), Lists(s)), "lastFolderId";
    HeaderOk(s);
    ListsAreOk(s);
    HeaderIsNoList(s);
    OtherNames();
    FileFormed(Header(s), Lists(s));
    BehindFile(Header(s), Lists(s), key, "\"");
    FolderInLists(s);
    if s.providers == [] {
      ReadsNothing(tokens, key, "\"");
    } else {
      ReadsQuoted(tokens, key, Quoted(key, s.providers[0].lastFolderId));
    }
  }

  // ----- what loading a printed state gives

  function KeptAccounts(accounts: seq<Account>): seq<Account> {
    if accounts == [] then []
    else KeptAccounts(accounts[..|accounts| - 1]) + if accounts[|accounts| - 1].id != [] then [accounts[|accounts| - 1]]
        else []
  }

  function KeptProviders(providers: seq<Provider>): seq<Provider> {
    if providers == [] then []
    else KeptProviders(providers[..|providers| - 1]) + if providers[|providers| - 1].id != []
        then [providers[|providers| - 1]] else []
  }

  function KeptTasks(tasks: seq<Task>): seq<Task> {
    if tasks == [] then []
    else KeptTasks(tasks[..|tasks| - 1]) + if tasks[|tasks| - 1].id != [] then [tasks[|tasks| - 1]] else []
  }

  function KeptItems(items: seq<Item>): seq<Item> {
    if items == [] then []
    else KeptItems(items[..|items| - 1]) + if items[|items| - 1].id != [] then [items[|items| - 1]] else []
  }

  /** The state a saved one becomes. */
  function Normal(s: State): State {
    s.(activeProviderId := if s.activeProviderId == [] then "google-drive" else s.activeProviderId,
       language := Supported(s.language),
       accounts := KeptAccounts(s.accounts),
       providers := Settled(KeptProviders(s.providers), FirstFolder(s.providers)),
       tasks := KeptTasks(s.tasks),
       library := KeptItems(s.library))
  }

  lemma {:induction false} TextsSnoc<T>(values: seq<T>, fields: T -> seq<Field>)
    requires values != []
    ensures RowTexts(Rows(values, fields))
         == RowTexts(Rows(values[..|values| - 1], fields)) + [RowText(fields(values[|values| - 1]))]
    ensures (RowTexts(Rows(values[..|values| - 1], fields)) + [RowText(fields(values[|values| - 1]))])[..|values| - 1]
         == RowTexts(Rows(values[..|values| - 1], fields))
  {
  }

  lemma {:induction false} TasksSnoc(rows: seq<string>, row: string)
    ensures Tasks(rows + [row], 8) == Tasks(rows, 8) + if ReadTask(row, 8).id != [] then [ReadTask(row, 8)] else []
  {
    assert (rows + [row])[..|rows|] == rows;
  }

  lemma {:induction false} ItemsSnoc(rows: seq<string>, row: string)
    requires StringField(row, "localState") != "removedAfterInstall"
    ensures Items(rows + [row], 8) == Items(rows, 8) + if ReadItem(row, 8).id != [] then [ReadItem(row, 8)] else []
  {
    assert (rows + [row])[..|rows|] == rows;
  }

  lemma {:induction false} AccountsBack(values: seq<Account>)
    ensures Accounts(RowTexts(Rows(values, AccountFields))) == KeptAccounts(values)
  {
    if values != [] {
      AccountsBack(values[..|values| - 1]);
      TextsSnoc(values, AccountFields);
      AccountBack(values[|values| - 1]);
    }
  }

  lemma {:induction false} ProvidersBack(values: seq<Provider>)
    ensures Providers(RowTexts(Rows(values, ProviderFields))) == KeptProviders(values)
  {
    if values != [] {
      ProvidersBack(values[..|values| - 1]);
      TextsSnoc(values, ProviderFields);
      ProviderBack(values[|values| - 1]);
    }
  }

  lemma {:induction false} TasksBack(values: seq<Task>)
    requires forall i :: 0 <= i < |values| ==> TaskSized(values[i])
    ensures Tasks(RowTexts(Rows(values, TaskFields)), 8) == KeptTasks(values)
  {
    if values != [] {
      TasksBack(values[..|values| - 1]);
      TextsSnoc(values, TaskFields);
      TaskBack(values[|values| - 1]);
      TasksSnoc(RowTexts(Rows(values[..|values| - 1], TaskFields)), RowText(TaskFields(values[|values| - 1])));
    }
  }

  lemma {:induction false} ItemsBack(values: seq<Item>)
    requires forall i :: 0 <= i < |values| ==> ItemSized(values[i])
    ensures Items(RowTexts(Rows(values, ItemFields)), 8) == KeptItems(values)
  {
    if values != [] {
      ItemsBack(values[..|values| - 1]);
      TextsSnoc(values, ItemFields);
      ItemBack(values[|values| - 1]);
      ItemsSnoc(RowTexts(Rows(values[..|values| - 1], ItemFields)), RowText(ItemFields(values[|values| - 1])));
    }
  }

  lemma ListsNamed(s: State)
    ensures Named(Lists(s), "accounts", 0) && Named(Lists(s), "providers", 1) && Named(Lists(s), "tasks", 2)
            && Named(Lists(s), "library", 3)
  {
  }

  lemma {:induction false} ListsBack(s: State)
    requires Sized(s)
    ensures ObjectRows(SaveText(s), "accounts") == RowTexts(Rows(s.accounts, AccountFields))
    ensures ObjectRows(SaveText(s), "providers") == RowTexts(Rows(s.providers, ProviderFields))
    ensures ObjectRows(SaveText(s), "tasks") == RowTexts(Rows(s.tasks, TaskFields))
    ensures ObjectRows(SaveText(s), "library") == RowTexts(Rows(s.library, ItemFields))
  {
    var header, lists := Header(s), Lists(s);
    HeaderOk(s);
    ListsAreOk(s);
    ListNames();
    ListsNamed(s);
    ObjectRowsOf(header, lists, "accounts", 0);
    ObjectRowsOf(header, lists, "providers", 1);
    ObjectRowsOf(header, lists, "tasks", 2);
    ObjectRowsOf(header, lists, "library", 3);
  }

  /** What the readers get out of a saved state. */
  function Kept(s: State): Parsed {
    Parsed(s.serviceUrl, s.consolePublicKey, s.sessionToken, s.lastAccountId, s.activeProviderId, Supported(s.language),
           FirstFolder(s.providers), KeptAccounts(s.accounts), KeptProviders(s.providers), KeptTasks(s.tasks),
           KeptItems(s.library))
  }

  predicate HoldsHeader(json: string, s: State) {
    && StringField(json, "serviceUrl") == s.serviceUrl && StringField(json, "consolePublicKey") == s.consolePublicKey
    && StringField(json, "sessionToken") == s.sessionToken && StringField(json, "lastAccountId") == s.lastAccountId
    && StringField(json, "activeProviderId") == s.activeProviderId
        && StringField(json, "language") == Supported(s.language)
    && StringField(json, "lastFolderId") == FirstFolder(s.providers)
  }

  predicate HoldsLists(json: string, s: State) {
    && Accounts(ObjectRows(json, "accounts")) == KeptAccounts(s.accounts)
    && Providers(ObjectRows(json, "providers")) == KeptProviders(s.providers)
    && Tasks(ObjectRows(json, "tasks"), 8) == KeptTasks(s.tasks)
    && Items(ObjectRows(json, "library"), 8) == KeptItems(s.library)
  }

  lemma {:induction false} SavedHeader(s: State)
    requires Sized(s)
    ensures HoldsHeader(SaveText(s), s)
  {
    HeaderQuoted(s, 1, "serviceUrl", s.serviceUrl);
    HeaderQuoted(s, 2, "consolePublicKey", s.consolePublicKey);
    HeaderQuoted(s, 3, "sessionToken", s.sessionToken);
    HeaderQuoted(s, 4, "lastAccountId", s.lastAccountId);
    HeaderQuoted(s, 5, "activeProviderId", s.activeProviderId);
    HeaderQuoted(s, 6, "language", Supported(s.language));
    FolderBack(s);
  }

  lemma {:induction false} SavedLists(s: State)
    requires Sized(s)
    ensures HoldsLists(SaveText(s), s)
  {
    ListsBack(s);
    AccountsBack(s.accounts);
    ProvidersBack(s.providers);
    TasksBack(s.tasks);
    ItemsBack(s.library);
  }

  lemma {:induction false} ParseHeld(json: string, s: State)
    requires HoldsHeader(json, s) && HoldsLists(json, s)
    ensures Parse(json, 8) == Kept(s)
  {
  }

  lemma MigratedKept(s: State)
    ensures Migrated(Kept(s), 8) == Normal(s)
  {
    assert Supported(Supported(s.language)) == Supported(s.language);
  }

  lemma LoadParsed(json: string, s: State)
    requires NumberField(json, "schemaVersion", 0) == 8 && Parse(json, 8) == Kept(s)
    ensures LoadText(json) == Normal(s)
  {
    AsIntSmall(8);
    MigratedKept(s);
  }

  lemma AsIntSmall(n: nat)
    requires n < 0x8000_0000
    ensures AsInt(n) == n
  {
  }

  lemma {:induction false} ParseSaved(s: State)
    requires Sized(s)
    ensures Parse(SaveText(s), 8) == Kept(s)
  {
    SavedHeader(s);
    SavedLists(s);
    ParseHeld(SaveText(s), s);
  }

  /** Loading any saved state gives its normal form. */
  lemma {:induction false} LoadSaved(s: State)
    requires Sized(s)
    ensures LoadText(SaveText(s)) == Normal(s)
  {
    ParseSaved(s);
    SchemaBack(s);
    LoadParsed(SaveText(s), s);
  }

  // ----- when a state survives

  /** The Google provider a state needs, and what its folder may be. */
  predicate FolderSettled(g: Provider, legacy: string) {
    && g.lastFolderId != [] && g.lastFolderId != "selected"
    && (g.lastFolderId == "root" ==> legacy == [] || legacy == "root" || legacy == "selected")
  }

  function FirstGoogle(providers: seq<Provider>): Option<Provider> {
    if providers == [] then None
    else if providers[0].kind.GoogleDrive? then Some(providers[0])
    else FirstGoogle(providers[1..])
  }

  /** What a caller can check before saving. */
  predicate Survives(s: State) {
    && s.activeProviderId != [] && Supported(s.language) == s.language
    && (forall i :: 0 <= i < |s.accounts| ==> s.accounts[i].id != [])
    && (forall i :: 0 <= i < |s.providers| ==> s.providers[i].id != [])
    && (forall i :: 0 <= i < |s.tasks| ==> s.tasks[i].id != [])
    && (forall i :: 0 <= i < |s.library| ==> s.library[i].id != [])
    && FirstGoogle(s.providers).Some? && FolderSettled(FirstGoogle(s.providers).value, FirstFolder(s.providers))
  }

  lemma {:induction false} AccountsKept(values: seq<Account>)
    ensures |KeptAccounts(values)| <= |values|
    ensures (forall i :: 0 <= i < |values| ==> values[i].id != []) ==> KeptAccounts(values) == values
    ensures |KeptAccounts(values)| == |values| ==> forall i :: 0 <= i < |values| ==> values[i].id != []
  {
    if values != [] {
      var front := values[..|values| - 1];
      AccountsKept(front);
      assert values == front + [values[|values| - 1]];
    }
  }

  lemma {:induction false} ProvidersKept(values: seq<Provider>)
    ensures |KeptProviders(values)| <= |values|
    ensures (forall i :: 0 <= i < |values| ==> values[i].id != []) ==> KeptProviders(values) == values
    ensures |KeptProviders(values)| == |values| ==> forall i :: 0 <= i < |values| ==> values[i].id != []
  {
    if values != [] {
      var front := values[..|values| - 1];
      ProvidersKept(front);
      assert values == front + [values[|values| - 1]];
    }
  }

  lemma {:induction false} TasksKept(values: seq<Task>)
    ensures |KeptTasks(values)| <= |values|
    ensures (forall i :: 0 <= i < |values| ==> values[i].id != []) ==> KeptTasks(values) == values
    ensures |KeptTasks(values)| == |values| ==> forall i :: 0 <= i < |values| ==> values[i].id != []
  {
    if values != [] {
      var front := values[..|values| - 1];
      TasksKept(front);
      assert values == front + [values[|values| - 1]];
    }
  }

  lemma {:induction false} ItemsKept(values: seq<Item>)
    ensures |KeptItems(values)| <= |values|
    ensures (forall i :: 0 <= i < |values| ==> values[i].id != []) ==> KeptItems(values) == values
    ensures |KeptItems(values)| == |values| ==> forall i :: 0 <= i < |values| ==> values[i].id != []
  {
    if values != [] {
      var front := values[..|values| - 1];
      ItemsKept(front);
      assert values == front + [values[|values| - 1]];
    }
  }

  lemma {:induction false} GoogleExists(providers: seq<Provider>)
    ensures HasGoogle(providers) <==> FirstGoogle(providers).Some?
  {
    if providers != [] {
      GoogleExists(providers[1..]);
      if HasGoogle(providers) && !providers[0].kind.GoogleDrive? {
        var i :| 0 <= i < |providers| && providers[i].kind.GoogleDrive?;
        assert providers[1..][i - 1].kind.GoogleDrive?;
      }
      if HasGoogle(providers[1..]) {
        var i :| 0 <= i < |providers[1..]| && providers[1..][i].kind.GoogleDrive?;
        assert providers[i + 1].kind.GoogleDrive?;
      }
    }
  }

  /** A change of the first Google provider's folder is no change exactly when the folder stays. */
  lemma {:induction false} OnGoogleSame(providers: seq<Provider>, first: Provider -> Provider,
          second: Provider -> Provider)
    requires FirstGoogle(providers).Some?
    requires forall p: Provider :: first(p).kind == p.kind
    ensures OnGoogle(OnGoogle(providers, first), second) == providers
            <==> second(first(FirstGoogle(providers).value)) == FirstGoogle(providers).value
  {
    var rest := providers[1..];
    if providers[0].kind.GoogleDrive? {
      assert OnGoogle(providers, first) == [first(providers[0])] + rest;
      assert OnGoogle(OnGoogle(providers, first), second) == [second(first(providers[0]))] + rest;
      assert providers == [providers[0]] + rest;
    } else {
      OnGoogleSame(rest, first, second);
      var once := OnGoogle(rest, first);
      assert OnGoogle(providers, first) == [providers[0]] + once;
      assert OnGoogle(OnGoogle(providers, first), second) == [providers[0]] + OnGoogle(once, second);
      assert providers == [providers[0]] + rest;
      SameAfter(providers[0], OnGoogle(once, second), rest);
    }
  }

  lemma SameAfter(p: Provider, a: seq<Provider>, b: seq<Provider>)
    ensures [p] + a == [p] + b <==> a == b
  {
    if [p] + a == [p] + b {
      assert ([p] + a)[1..] == a && ([p] + b)[1..] == b;
    }
  }

  /** The provider list survives exactly when it has a Google provider whose folder is settled. */
  lemma {:induction false} ProvidersSettled(providers: seq<Provider>, legacy: string)
    ensures |Settled(providers, legacy)| >= |providers|
    ensures Settled(providers, legacy) == providers
            <==> FirstGoogle(providers).Some? && FolderSettled(FirstGoogle(providers).value, legacy)
  {
    GoogleExists(providers);
    if HasGoogle(providers) {
      var g := FirstGoogle(providers).value;
      OnGoogleSame(providers, p => WithLegacy(p, legacy), WithoutSelected);
      FolderStays(g, legacy);
    }
  }

  lemma FolderStays(g: Provider, legacy: string)
    ensures WithoutSelected(WithLegacy(g, legacy)) == g <==> FolderSettled(g, legacy)
  {
  }

  predicate Identified(providers: seq<Provider>) {
    forall i :: 0 <= i < |providers| ==> providers[i].id != []
  }

  lemma {:induction false} KeptIdentified(providers: seq<Provider>)
    ensures Identified(KeptProviders(providers))
  {
    if providers != [] { KeptIdentified(providers[..|providers| - 1]); }
  }

  lemma {:induction false} OnGoogleIdentified(providers: seq<Provider>, change: Provider -> Provider)
    requires Identified(providers) && forall p: Provider :: change(p).id == p.id
    ensures Identified(OnGoogle(providers, change))
  {
    if providers != [] && !providers[0].kind.GoogleDrive? { OnGoogleIdentified(providers[1..], change); }
  }

  lemma {:induction false} SettledIdentified(providers: seq<Provider>, legacy: string)
    requires Identified(providers)
    ensures Identified(Settled(providers, legacy))
  {
    var change := p => WithLegacy(p, legacy);
    OnGoogleIdentified(WithGoogle(providers), change);
    OnGoogleIdentified(OnGoogle(WithGoogle(providers), change), WithoutSelected);
  }

  /** Loading a saved state gives the same state exactly when it survives. */
  lemma {:induction false} RoundTrip(s: State)
    requires Sized(s)
    ensures LoadText(SaveText(s)) == s <==> Survives(s)
  {
    LoadSaved(s);
    AccountsKept(s.accounts);
    ProvidersKept(s.providers);
    TasksKept(s.tasks);
    ItemsKept(s.library);
    KeptIdentified(s.providers);
    SettledIdentified(KeptProviders(s.providers), FirstFolder(s.providers));
    ProvidersSettled(KeptProviders(s.providers), FirstFolder(s.providers));
  }

  // ----- the methods

  /** The records of a list, as the loops of `save` print them. */
  method PrintRows(output: string, rows: seq<seq<Field>>) returns (r: string)
    ensures r == output + Text(RowsTokens(rows))
  {
    r := output;
    assert output + [] == output;
    for i := 0 to |rows|
      invariant r == output + Text(RowsTokens(rows[..i]))
    {
      PrintsRow(output, rows, i);
      if i > 0 { r := r + ","; }
      r := r + RowText(rows[i]);
    }
    assert rows[..|rows|] == rows;
  }

  lemma {:induction false} PrintsRow(output: string, rows: seq<seq<Field>>, i: nat)
    requires i < |rows|
    ensures output + Text(RowsTokens(rows[..i + 1]))
         == (if i == 0 then output + Text(RowsTokens(rows[..i]))
             else output + Text(RowsTokens(rows[..i])) + ",") + RowText(rows[i])
  {
    RowsTokensSnoc(rows[..i], rows[i]);
    TakeOneMore(rows, i);
    if i == 0 {
      assert output + [] == output;
    } else {
      Regroup(output, Text(RowsTokens(rows[..i])), "," + RowText(rows[i]));
      Regroup(output + Text(RowsTokens(rows[..i])), ",", RowText(rows[i]));
    }
  }

  lemma {:induction false} MoreRowsSnoc(rows: seq<seq<Field>>, row: seq<Field>)
    ensures Text(MoreRows(rows + [row])) == Text(MoreRows(rows)) + ("," + RowText(row))
  {
    if rows == [] {
      assert rows + [row] == [row] && [row][1..] == [];
      MoreRowsIs([row]);
      assert "," + RowText(row) + [] == [] + ("," + RowText(row));
    } else {
      MoreRowsIs(rows + [row]);
      MoreRowsIs(rows);
      MoreRowsSnoc(rows[1..], row);
      assert (rows + [row])[1..] == rows[1..] + [row];
      Regroup("," + RowText(rows[0]), Text(MoreRows(rows[1..])), "," + RowText(row));
    }
  }

  lemma {:induction false} RowsTokensSnoc(rows: seq<seq<Field>>, row: seq<Field>)
    ensures Text(RowsTokens(rows + [row])) == if rows == [] then RowText(row)
            else Text(RowsTokens(rows)) + ("," + RowText(row))
  {
    if rows == [] {
      assert rows + [row] == [row] && [row][1..] == [];
      assert RowsTokens([row]) == RowTokens(row) + [] == RowTokens(row);
    } else {
      assert (rows + [row])[1..] == rows[1..] + [row];
      TextAppend(RowTokens(rows[0]), MoreRows(rows[1..] + [row]));
      TextAppend(RowTokens(rows[0]), MoreRows(rows[1..]));
      MoreRowsSnoc(rows[1..], row);
      Regroup(RowText(rows[0]), Text(MoreRows(rows[1..])), "," + RowText(row));
    }
  }

  /** The loop of `load` over the saved tasks; the other three loops have the same shape. */
  method TasksLoop(rows: seq<string>, schema: int) returns (tasks: seq<Task>)
    ensures tasks == Tasks(rows, schema)
  {
    tasks := [];
    for i := 0 to |rows|
      invariant tasks == Tasks(rows[..i], schema)
    {
      assert rows[..i + 1][..i] == rows[..i];
      var task := ReadTask(rows[i], schema);
      if task.id != [] { tasks := tasks + [task]; }
    }
    assert rows[..|rows|] == rows;
  }
}
