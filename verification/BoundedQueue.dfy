/** What both rings implement: a first-in first-out queue of bounded length. */
module BoundedQueue {
  import opened Common

  /** How many of `offered` elements a queue of `length` elements takes in. */
  function Room(capacity: nat, length: nat, offered: nat): (n: nat)
    ensures n <= offered && (length <= capacity ==> length + n <= capacity)
    ensures length <= capacity ==> n == offered || length + n == capacity
  {
    Min(offered, capacity - Min(length, capacity))
  }
}
