/** Names used across the model. */
module Entities {
  /** User ids as 128-bit numbers; canonical UUID text sorts the same way. */
  type UserId = nat

  /** expenses.split_mode and recurring_expenses.split_mode */
  datatype Mode = EQUAL | EXACT | PERCENTAGE | SHARES
}
