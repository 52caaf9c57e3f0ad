/** The engine settings record: a path and three numbers with defaults. */
module StockfishConfig {
  import opened Wrappers
  import Numeric

  type u8 = Numeric.u8
  type usize = Numeric.usize

  const DefaultDepth: u8 := 10
  const DefaultMemory: usize := 1024
  const DefaultElo: usize := 2500

  datatype StockfishConfig = StockfishConfig(enginePath: string, depth: u8, memory: usize, elo: usize)

  /**
   * `StockfishConfig::new`: never fails; the path is copied, and each
   * missing number takes its default while a given one is kept.
   */
  function New(enginePath: string, depth: Option<u8>, memory: Option<usize>, elo: Option<usize>): (r: Result<StockfishConfig, string>)
    ensures r.Success?
    ensures r.value.enginePath == enginePath
    ensures r.value.depth == (if depth.Some? then depth.value else 10)
    ensures r.value.memory == (if memory.Some? then memory.value else 1024)
    ensures r.value.elo == (if elo.Some? then elo.value else 2500)
  {
    Success(StockfishConfig(enginePath, depth.UnwrapOr(DefaultDepth), memory.UnwrapOr(DefaultMemory), elo.UnwrapOr(DefaultElo)))
  }
}
