/** Network identities, monetary policies and consensus constants (package params). */
module Params {
  import opened Prelude

  datatype Network = PublicTestnet | Mainnet | OtherNetwork(name: string)

  /** `OtherPolicy` stands for every policy code that ValidateMonetaryPolicy rejects. */
  datatype Policy = TestnetPolicy | MainnetPolicy | OtherPolicy(code: nat)

  const TREASURY := "16d7dc9ec0495109007860a584c7cf9055da9abf"

  /** Hard caps in base units: 51 billion and 51 million coins of 100,000,000 units each. */
  const MAX_SUPPLY := 5_100_000_000_000_000_000
  const MAINNET_MAX_SUPPLY := 5_100_000_000_000_000

  const TARGET_BLOCK_SECONDS := 60
  const MAX_FUTURE_BLOCK_SECONDS := 7200
  const DIFFICULTY_WINDOW := 11
  const MAX_REORG_DEPTH := 120
  const GPU_ACTIVATION_DISABLED := MAX_U64

  const MIN_TRANSFER := 1000
  const MAX_TX_ID := 64
  const MAX_TX_KEY := 65
  const MAX_TX_SIGNATURE := 64
  const MAX_TX_BYTES := 1024

  const MAX_POOL_TXS := 4096
  const MAX_POOL_BYTES := 4 * 1024 * 1024
  const MAX_POOL_PER_SENDER := 64

  const MAX_BLOCK_TXS := 1000
  const MAX_BLOCK_BYTES := 1024 * 1024
  const MAX_BLOCKS_PER_MESSAGE := 128

  function MaxSupplyFor(policy: Policy): u64 {
    match policy
    case TestnetPolicy => MAX_SUPPLY
    case MainnetPolicy => MAINNET_MAX_SUPPLY
    case OtherPolicy(_) => 0
  }

  function PolicyFor(network: Network): Option<Policy> {
    match network
    case PublicTestnet => Some(TestnetPolicy)
    case Mainnet => Some(MainnetPolicy)
    case OtherNetwork(_) => None
  }

  function NetworkFor(policy: Policy): Option<Network> {
    match policy
    case TestnetPolicy => Some(PublicTestnet)
    case MainnetPolicy => Some(Mainnet)
    case OtherPolicy(_) => None
  }
}
