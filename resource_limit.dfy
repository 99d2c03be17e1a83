/** `check_resource_limit`: whether the soft limit on open files can hold
    every connection the configured test opens. The soft limit is what
    `getrlimit(RLIMIT_NOFILE)` reports; here it is a parameter. */
module ResourceLimit {
  import opened Unsigned

  /** The connection figure the check compares, as the `uint`
      `total_connections`: ports × threads per port × connections per thread
      on the client, the port count alone on the receiver (which cannot know
      the sender's fan-out). */
  function ExpectedConnections(clientRole: bool, serverPorts: u32, threadsPerServerPort: u32,
                               connsPerThread: u32): (n: u32)
    ensures clientRole ==> n as int == (serverPorts * threadsPerServerPort * connsPerThread) % U32_MODULUS
    ensures !clientRole ==> n == serverPorts
  {
    Mul32Twice(serverPorts, threadsPerServerPort, connsPerThread);
    if clientRole then Mul32(Mul32(serverPorts, threadsPerServerPort), connsPerThread)
    else Mul32(serverPorts, 1)
  }

  /** `check_resource_limit`: false exactly when the expected connections
      exceed the soft limit; equality passes. */
  function CheckResourceLimit(clientRole: bool, serverPorts: u32, threadsPerServerPort: u32,
                              connsPerThread: u32, softLimit: u64): (ok: bool)
    ensures ok <==> ExpectedConnections(clientRole, serverPorts, threadsPerServerPort, connsPerThread) <= softLimit
  {
    var totalConnections := ExpectedConnections(clientRole, serverPorts, threadsPerServerPort, connsPerThread);
    if totalConnections > softLimit then false else true
  }

  /** When the product fits in 32 bits the client's figure is the exact
      product, and a client passes exactly when the soft limit holds it. */
  lemma ClientExact(serverPorts: u32, threadsPerServerPort: u32, connsPerThread: u32, softLimit: u64)
    requires serverPorts * threadsPerServerPort * connsPerThread < U32_MODULUS
    ensures ExpectedConnections(true, serverPorts, threadsPerServerPort, connsPerThread)
      == serverPorts * threadsPerServerPort * connsPerThread
    ensures CheckResourceLimit(true, serverPorts, threadsPerServerPort, connsPerThread, softLimit)
      <==> serverPorts * threadsPerServerPort * connsPerThread <= softLimit
  {
    var p := serverPorts * threadsPerServerPort * connsPerThread;
    NatProduct(serverPorts, threadsPerServerPort);
    NatProduct(serverPorts * threadsPerServerPort, connsPerThread);
    assert 0 <= p < U32_MODULUS;
    assert p % U32_MODULUS == p;
  }

  /** Raising the soft limit never turns a pass into a failure. */
  lemma LimitMonotone(clientRole: bool, serverPorts: u32, threadsPerServerPort: u32,
                      connsPerThread: u32, lo: u64, hi: u64)
    requires lo <= hi
    requires CheckResourceLimit(clientRole, serverPorts, threadsPerServerPort, connsPerThread, lo)
    ensures CheckResourceLimit(clientRole, serverPorts, threadsPerServerPort, connsPerThread, hi)
  {
  }

  /** Two ports of four threads with ten connections each need 80
      descriptors: a soft limit of 100 passes, one of 50 fails, and a
      receiver with the same two ports passes either. */
  lemma CheckExamples()
    ensures ExpectedConnections(true, 2, 4, 10) == 80
    ensures CheckResourceLimit(true, 2, 4, 10, 100)
    ensures !CheckResourceLimit(true, 2, 4, 10, 50)
    ensures CheckResourceLimit(false, 2, 4, 10, 50)
  {
  }

  /** The 32-bit product can wrap: 65536 ports × 65536 threads × 1 connection
      is 2^32, which the `uint` holds as 0, so even a soft limit of 0 passes. */
  lemma ClientWraps()
    ensures ExpectedConnections(true, 65536, 65536, 1) == 0
    ensures CheckResourceLimit(true, 65536, 65536, 1, 0)
  {
  }
}
