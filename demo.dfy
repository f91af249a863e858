/**
 * Demo: the script at the end of blockchain.js, as a client of `BlockChain`.
 * The clock read of the genesis block becomes the parameter `now`; the console
 * output is dropped.
 */
module Demo {
  import opened Blocks
  import opened Ledger

  /**
   * Two blocks with indices 1 and 2 are added to a fresh chain; the chain then
   * has three blocks, is valid, and each new block links to its predecessor.
   */
  method RunDemo(hashing: Hashing, now: string) returns (valid: bool, length: nat, linked: bool)
    ensures valid && length == 3 && linked
  {
    var myChain := new BlockChain(hashing, now);
    myChain.AddBlock(NewBlock(1, "18/10/2024", JObject([("qty", JNumber(15))]), hashing));
    myChain.AddBlock(NewBlock(2, "18/10/2024", JObject([("qty", JNumber(25))]), hashing));
    valid := myChain.IsChainValid();
    length := |myChain.chain|;
    linked := myChain.chain[1].previousHash == myChain.chain[0].hash
              && myChain.chain[2].previousHash == myChain.chain[1].hash;
  }
}
