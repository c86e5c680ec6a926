/** The static list of tracked assets (lib/universe.ts). */
module Registry {

  /** One tracked asset. `ticker` is the label used internally and by the fundamentals
      and news provider; `providerSymbol` is the symbol the time-series provider expects;
      `strategy` is the free-text cluster label used for grouping. */
  datatype Asset = Asset(
    name: string,
    ticker: string,
    exchange: string,
    strategy: string,
    providerSymbol: string)

  const AiInfra := "AI & Digital Infra: AI / Semis / Automation / Robotics"

  /** The registry as shipped, in declaration order. */
  const Universe: seq<Asset> := [
    Asset("ADOBE INC.", "ADBE", "XNAS", AiInfra, "ADBE"),
    Asset("PAYPAL HOLDINGS, INC.", "PYPL", "XNAS", "Others", "PYPL"),
    Asset("PALO ALTO NETWORKS, INC.", "PANW", "XNAS", "Cybersecurity & Defense", "PANW"),
    Asset("ALPHABET INC.", "GOOGL", "XNAS", AiInfra, "GOOGL")
  ]
}
