/**
 * The vision function's database settings (module globals in the source)
 * and the step that overlays them with values held in the vault.
 */
module VisionConfig {
  import opened Common
  import opened Text

  const DefaultOrdsBaseUrl: string :=
    "https://g4f1b0a16e960d1-visionjsondb.adb.ca-toronto-1.oraclecloudapps.com/ords/"
  const DbSchema: string := "admin"
  /** `f"{DB_SCHEMA}/soda/latest"` */
  const SodaPath: string := DbSchema + "/soda/latest"
  const Collection: string := "IMAGE_ANALYSIS"

  /** An environment variable read with `os.environ.get` counts as set when non-empty. */
  predicate IsSet(v: Option<string>) {
    v.Some? && v.value != ""
  }

  /** The three secret ids: `DB_PASSWORD_SECRET_OCID`, `DB_USERNAME_SECRET_OCID`, `DB_ORDS_URL_SECRET_OCID`. */
  datatype SecretIds = SecretIds(password: Option<string>, username: Option<string>, ordsUrl: Option<string>)

  /** What a vault fetch returns for each id: the decoded text, or None when the fetch failed. */
  datatype VaultReplies = VaultReplies(password: Option<string>, username: Option<string>, ordsUrl: Option<string>)

  predicate AnySet(ids: SecretIds) {
    IsSet(ids.password) || IsSet(ids.username) || IsSet(ids.ordsUrl)
  }

  /** A fetched secret replaces a setting only when its id is set and the text is non-empty. */
  predicate Replaces(id: Option<string>, reply: Option<string>) {
    IsSet(id) && reply.Some? && reply.value != ""
  }

  /** The four settings the source keeps in module globals. */
  datatype DbSettings = DbSettings(ordsBaseUrl: string, username: Option<string>, password: Option<string>, baseUrl: string)

  /** How the source derives the SODA base URL from the ORDS URL. */
  predicate Derived(s: DbSettings) {
    s.baseUrl == s.ordsBaseUrl + SodaPath
  }

  /**
   * `load_db_config_from_vault_if_available` on values: with no id set the
   * settings stay as they are; otherwise each setting whose id is set and
   * whose fetch returned non-empty text is replaced (username and URL
   * stripped, the password verbatim) and the base URL is recomputed.
   */
  function VaultOverlay(s: DbSettings, ids: SecretIds, vault: VaultReplies): (r: DbSettings)
    ensures !AnySet(ids) ==> r == s
    ensures AnySet(ids) ==> Derived(r)
    ensures Derived(s) ==> Derived(r)
    ensures Replaces(ids.password, vault.password) ==> r.password == vault.password
    ensures !Replaces(ids.password, vault.password) ==> r.password == s.password
    ensures Replaces(ids.username, vault.username) ==> r.username == Some(Strip(vault.username.value))
    ensures !Replaces(ids.username, vault.username) ==> r.username == s.username
    ensures Replaces(ids.ordsUrl, vault.ordsUrl) ==> r.ordsBaseUrl == Strip(vault.ordsUrl.value)
    ensures !Replaces(ids.ordsUrl, vault.ordsUrl) ==> r.ordsBaseUrl == s.ordsBaseUrl
  {
    if !AnySet(ids) then s
    else
      var username := if Replaces(ids.username, vault.username) then Some(Strip(vault.username.value)) else s.username;
      var password := if Replaces(ids.password, vault.password) then vault.password else s.password;
      var ordsBaseUrl := if Replaces(ids.ordsUrl, vault.ordsUrl) then Strip(vault.ordsUrl.value) else s.ordsBaseUrl;
      DbSettings(ordsBaseUrl, username, password, ordsBaseUrl + SodaPath)
  }

  /** Both credentials present and non-empty: the handler's check after the overlay. */
  predicate HasCredentials(s: DbSettings) {
    s.username.Some? && s.username.value != "" && s.password.Some? && s.password.value != ""
  }

  /**
   * The overlay runs on every invocation of a warm function; running it a
   * second time with the same vault answers changes nothing.
   */
  lemma VaultOverlayIdempotent(s: DbSettings, ids: SecretIds, vault: VaultReplies)
    ensures VaultOverlay(VaultOverlay(s, ids, vault), ids, vault) == VaultOverlay(s, ids, vault)
  {
    var once := VaultOverlay(s, ids, vault);
    var twice := VaultOverlay(once, ids, vault);
    if AnySet(ids) {
      assert twice.username == once.username;
      assert twice.password == once.password;
      assert twice.ordsBaseUrl == once.ordsBaseUrl;
    }
  }

  /** A vault username that strips to nothing leaves the function without credentials. */
  lemma BlankVaultUsername(s: DbSettings, ids: SecretIds, vault: VaultReplies)
    requires Replaces(ids.username, vault.username) && AllSpace(vault.username.value)
    ensures !HasCredentials(VaultOverlay(s, ids, vault))
  {
    assert Strip(vault.username.value) == "";
  }

  class DbConfig {
    var ordsBaseUrl: string          // DB_ORDS_BASE_URL
    var username: Option<string>     // DB_USERNAME
    var password: Option<string>     // DB_PASSWORD
    var baseUrl: string              // DB_BASE_URL

    function Current(): DbSettings
      reads this
    {
      DbSettings(ordsBaseUrl, username, password, baseUrl)
    }

    /** The module-level initialisation from the environment. */
    constructor (ordsEnv: Option<string>, usernameEnv: Option<string>, passwordEnv: Option<string>)
      ensures Derived(Current())
      ensures ordsBaseUrl == (if ordsEnv.Some? then ordsEnv.value else DefaultOrdsBaseUrl)
      ensures username == usernameEnv && password == passwordEnv
    {
      ordsBaseUrl := if ordsEnv.Some? then ordsEnv.value else DefaultOrdsBaseUrl;
      username := usernameEnv;
      password := passwordEnv;
      baseUrl := (if ordsEnv.Some? then ordsEnv.value else DefaultOrdsBaseUrl) + SodaPath;
    }

    /** `load_db_config_from_vault_if_available`, updating the globals in place. */
    method LoadFromVault(ids: SecretIds, vault: VaultReplies)
      modifies this
      ensures Current() == VaultOverlay(old(Current()), ids, vault)
    {
      if !AnySet(ids) {
        return;
      }
      if IsSet(ids.username) {
        var v := vault.username;
        if v.Some? && v.value != "" {
          username := Some(Strip(v.value));
        }
      }
      if IsSet(ids.password) {
        var v := vault.password;
        if v.Some? && v.value != "" {
          password := v;
        }
      }
      if IsSet(ids.ordsUrl) {
        var v := vault.ordsUrl;
        if v.Some? && v.value != "" {
          ordsBaseUrl := Strip(v.value);
        }
      }
      baseUrl := ordsBaseUrl + SodaPath;
    }
  }
}
