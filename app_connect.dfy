/**
 * How the web app obtains its database connection in `init_oci_clients`:
 * the list of connection attempts it builds (wallet-based when the wallet
 * directory exists, DSN-based when `DB_CONNECTION_STRING` is set, none
 * otherwise) and the loop that tries them in order and keeps the first
 * that connects. Whether an attempt connects is an input.
 */
module AppConnect {
  import opened Common

  /**
   * The wallet attempts connect to the `visionjsondb_medium` service with
   * the wallet in `/app/wallet`; the DSN attempts use `DB_CONNECTION_STRING`.
   */
  datatype Attempt =
    | AutoLoginWallet                         // dsn only; TNS_ADMIN points at the wallet
    | WalletAdminWithPassword(password: string)
    | WalletWithLocation
    | WalletWithConfigDir
    | WalletAdminWithoutPassword
    | DsnWithEmptyWallet(dsn: string)         // config_dir and wallet_location "/dev/null"
    | DsnOnly(dsn: string)

  /**
   * The attempt list, or None when no list is built (no wallet and no
   * usable `DB_CONNECTION_STRING`). The wallet branch ignores the DSN and
   * uses `DB_PASSWORD` with "" for a missing one.
   */
  function ConnectionPlan(walletExists: bool, dbPasswordEnv: Option<string>, dsnEnv: Option<string>): (plan: Option<seq<Attempt>>)
    ensures plan.None? <==> !walletExists && (dsnEnv.None? || dsnEnv.value == "")
    ensures walletExists ==> plan == Some([AutoLoginWallet,
                                           WalletAdminWithPassword(if dbPasswordEnv.Some? then dbPasswordEnv.value else ""),
                                           WalletWithLocation, WalletWithConfigDir, WalletAdminWithoutPassword])
    ensures !walletExists && plan.Some? ==> plan.value == [DsnWithEmptyWallet(dsnEnv.value), DsnOnly(dsnEnv.value)]
  {
    if walletExists then
      var password := if dbPasswordEnv.Some? then dbPasswordEnv.value else "";
      Some([AutoLoginWallet, WalletAdminWithPassword(password), WalletWithLocation,
            WalletWithConfigDir, WalletAdminWithoutPassword])
    else if dsnEnv.None? || dsnEnv.value == "" then None
    else Some([DsnWithEmptyWallet(dsnEnv.value), DsnOnly(dsnEnv.value)])
  }

  /**
   * The `for … break` loop: attempts run in list order and the first that
   * connects ends it; `tried` counts the attempts made. No connection
   * means every attempt failed.
   */
  method TryConnections(attempts: seq<Attempt>, connects: Attempt -> bool)
    returns (connection: Option<Attempt>, tried: nat)
    ensures tried <= |attempts|
    ensures forall i | 0 <= i < tried - 1 :: !connects(attempts[i])
    ensures connection.Some? ==> 1 <= tried && connection.value == attempts[tried - 1] && connects(connection.value)
    ensures connection.None? ==> tried == |attempts| && forall i | 0 <= i < |attempts| :: !connects(attempts[i])
    ensures connection == FirstConnection(attempts, connects)
  {
    connection := None;
    tried := 0;
    while tried < |attempts|
      invariant tried <= |attempts|
      invariant forall i | 0 <= i < tried :: !connects(attempts[i])
      invariant FirstConnection(attempts, connects) == FirstConnection(attempts[tried..], connects)
    {
      var attempt := attempts[tried];
      assert attempts[tried..][1..] == attempts[tried + 1..];
      tried := tried + 1;
      if connects(attempt) {
        connection := Some(attempt);
        return;
      }
    }
  }

  /** The connection the loop ends with, as a value: the first attempt that connects. */
  function FirstConnection(attempts: seq<Attempt>, connects: Attempt -> bool): (r: Option<Attempt>)
    ensures r.None? <==> forall i | 0 <= i < |attempts| :: !connects(attempts[i])
    ensures r.Some? ==> exists i | 0 <= i < |attempts| ::
      attempts[i] == r.value && connects(r.value) && forall j | 0 <= j < i :: !connects(attempts[j])
  {
    if attempts == [] then None
    else if connects(attempts[0]) then Some(attempts[0])
    else
      var r := FirstConnection(attempts[1..], connects);
      assert forall i | 0 <= i < |attempts| - 1 :: attempts[1..][i] == attempts[i + 1];
      r
  }

  /** The database connection `init_oci_clients` ends with, once Resource Principals succeeded. */
  function DbConnection(plan: Option<seq<Attempt>>, connects: Attempt -> bool): (r: Option<Attempt>)
    ensures r.None? <==> plan.None? || forall i | 0 <= i < |plan.value| :: !connects(plan.value[i])
  {
    if plan.None? then None else FirstConnection(plan.value, connects)
  }
}
