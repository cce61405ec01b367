/** How a store answers a scan of a namespace (src/core/memory_engine.cpp:104-113, 310-323). */
module StoreScans {
  /** It returns entries, says that there is no such resource, or fails in another way. */
  datatype ScanStatus = Found | Missing | Failed
}
