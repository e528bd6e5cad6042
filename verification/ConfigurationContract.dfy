/** The setting table of the Configuration Contract. A setting is its place in the table; the path texts of
    the table are left to a parameter wherever they matter. */
module ConfigurationContract {
  const SETTING_COUNT: nat := 100

  type Setting = n: nat | n < 100

  const SCHEMA_VERSION: Setting := 0
  const LOG_LEVEL: Setting := 1
  const SHUTDOWN_GRACE_SECONDS: Setting := 2
  const MAX_REGISTERED_TENANTS: Setting := 3
  const CONTROL_PATH: Setting := 4
  const API_TRANSPORT: Setting := 23
  const API_CORS_ALLOWED_ORIGINS: Setting := 38
  const DATA_DIRECTORY: Setting := 96
  const SECRETS_DIRECTORY: Setting := 97
  const LOCAL_KEY_FILE: Setting := 98
  const EXPORT_DESTINATIONS: Setting := 99

  datatype Mutability = LiveReloadable | DrainAndReload | RestartRequired | ImmutableAfterInitialization

  function MutabilityOf(s: Setting): Mutability {
    if s == LOG_LEVEL then LiveReloadable
    else if s == SHUTDOWN_GRACE_SECONDS || s == MAX_REGISTERED_TENANTS then RestartRequired
    else if s == SCHEMA_VERSION || s >= DATA_DIRECTORY then ImmutableAfterInitialization
    else DrainAndReload
  }

  /** The certificate, private key and client authority files of the five listeners. */
  predicate IsTlsFile(s: Setting) {
    17 <= s <= 19 || 41 <= s <= 43 || 61 <= s <= 63 || 76 <= s <= 78 || 91 <= s <= 93
  }

  predicate IsBindAddress(s: Setting) {
    s == 7 || s == 22 || s == 44 || s == 66 || s == 81
  }

  predicate IsTransport(s: Setting) {
    s == 8 || s == API_TRANSPORT || s == 45 || s == 67 || s == 82
  }

  predicate IsTrustedProxyCidrs(s: Setting) {
    s == 20 || s == 39 || s == 64 || s == 79 || s == 94
  }

  predicate SecretBearing(s: Setting) {
    IsTlsFile(s) || s == LOCAL_KEY_FILE
  }

  datatype Provenance = ConfigurationFileOnly | NonSecretOverrides | ProtectedConfigurationFileOnly

  function ProvenanceOf(s: Setting): Provenance {
    if SecretBearing(s) then ProtectedConfigurationFileOnly
    else if LOG_LEVEL <= s <= CONTROL_PATH || IsBindAddress(s) then NonSecretOverrides
    else ConfigurationFileOnly
  }

  datatype Source = CompiledDefault | ConfigurationFile | Environment | CommandLine

  predicate Allows(p: Provenance, source: Source) {
    p.NonSecretOverrides? || source.CompiledDefault? || source.ConfigurationFile?
  }

  predicate RequiresDriftFence(s: Setting) {
    s == SCHEMA_VERSION || s == CONTROL_PATH || s == API_TRANSPORT || IsTlsFile(s) || s >= DATA_DIRECTORY
  }

  datatype Kind = Integer | Text | TrustedProxyCidrs | CorsAllowedOrigins | ExportDestinations

  function KindOf(s: Setting): Kind {
    if s == EXPORT_DESTINATIONS then ExportDestinations
    else if s == API_CORS_ALLOWED_ORIGINS then CorsAllowedOrigins
    else if IsTrustedProxyCidrs(s) then TrustedProxyCidrs
    else if s == LOG_LEVEL || s == CONTROL_PATH || IsBindAddress(s) || IsTransport(s) || IsTlsFile(s) || s >= DATA_DIRECTORY
    then Text
    else Integer
  }
}
