/** Resolution of the database connection string: the environment first,
    then (optionally) a Key Vault secret, otherwise a configuration error.
    The process environment and the secret store are parameters. */
module Config {
  import opened Nullable
  import opened Text

  /** Name of both the environment variable and the Key Vault secret. */
  const ConnectionStringName := "DatabaseConnectionString"
  /** Name of the environment variable holding the Key Vault URI. */
  const KeyVaultUriName := "KeyVaultUri"

  const NotFoundMessage :=
    "データベース接続文字列が見つかりません。'DatabaseConnectionString' 環境変数を設定するか、Key Vault を設定してください。"
  const VaultFailurePrefix :=
    "環境変数 'DatabaseConnectionString' が見つからず、Key Vault 取得に失敗: "

  /** Why no connection string could be resolved; both surface as an
      `InvalidOperationException`. */
  datatype ConfigError =
    | NotConfigured
    | VaultLookupFailed(cause: string)
  {
    /** The exception message. */
    function Message(): string {
      match this
      case NotConfigured => NotFoundMessage
      case VaultLookupFailed(cause) => VaultFailurePrefix + cause
    }
  }

  /** `env(name)` reads an environment variable (`None` when unset);
      `fetchSecret(uri, name)` stands for building the vault client from
      `uri` and reading secret `name`, failing with the exception message. */
  function ResolveConnectionString(
    env: string -> Option<string>,
    fetchSecret: (string, string) -> Result<string, string>
  ): (r: Result<string, ConfigError>)
    // a non-empty environment value wins, whatever the vault would answer
    ensures !IsNullOrEmpty(env(ConnectionStringName)) ==>
              r == Success(env(ConnectionStringName).value)
    // with no environment value and no vault URI, resolution fails
    ensures IsNullOrEmpty(env(ConnectionStringName)) && IsNullOrEmpty(env(KeyVaultUriName)) ==>
              r == Failure(NotConfigured)
    // otherwise the answer is the vault's: its secret, or its failure wrapped
    ensures IsNullOrEmpty(env(ConnectionStringName)) && !IsNullOrEmpty(env(KeyVaultUriName)) ==>
              match fetchSecret(env(KeyVaultUriName).value, ConnectionStringName)
              case Success(secret) => r == Success(secret)
              case Failure(cause) => r == Failure(VaultLookupFailed(cause))
    // the only error that does not come from the vault is NotConfigured
    ensures r == Failure(NotConfigured) <==>
              IsNullOrEmpty(env(ConnectionStringName)) && IsNullOrEmpty(env(KeyVaultUriName))
  {
    var fromEnv := env(ConnectionStringName);
    if !IsNullOrEmpty(fromEnv) then Success(fromEnv.value)
    else
      var kvUri := env(KeyVaultUriName);
      if !IsNullOrEmpty(kvUri) then
        match fetchSecret(kvUri.value, ConnectionStringName)
        case Success(secret) => Success(secret)
        case Failure(cause) => Failure(VaultLookupFailed(cause))
      else Failure(NotConfigured)
  }
}
