/** The widths of the numbers in the C program: 32-bit unsigned counts, returned as int. */
module MachineIntegers {
  const UNSIGNED_LIMIT: nat := 0x1_0000_0000
  const INT_LIMIT: nat := 0x8000_0000

  // A count converted to the result type.
  function ToInt(n: nat): int
    requires n < UNSIGNED_LIMIT
  {
    if n < INT_LIMIT then n else n - UNSIGNED_LIMIT
  }
}
