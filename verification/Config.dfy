/** The parts of the configuration the modelled code reads, and its error type. */
module Config {
  import opened Wrappers

  datatype LoadBalanceStrategy = RoundRobin | Random | LeastConnections | IpHash

  datatype UpstreamConfig =
    | Static(url: string)
    | Service(name: string, discovery: string)
    | LoadBalance(endpoints: seq<string>, strategy: LoadBalanceStrategy)

  datatype RetryConfig = RetryConfig(maxAttempts: nat, backoffMs: nat)

  datatype RouteConfig = RouteConfig(
    id: string,
    path: string,
    methods: Option<seq<string>>,
    upstream: UpstreamConfig,
    stripPrefix: Option<string>,
    retry: Option<RetryConfig>,
    timeoutMs: Option<nat>,
    cacheEnabled: Option<bool>,
    authRequired: Option<bool>)

  datatype GatewayError =
    | ConfigError(message: string)
    | DiscoveryError(message: string)
    | ProxyError(message: string)
    | UpstreamUnavailable
}
