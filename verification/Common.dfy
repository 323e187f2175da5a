/** What several modules share. */
module Common {

  datatype Option<+T> = None | Some(value: T)

  const TWO_TO_THE_31: nat := 0x8000_0000
  const TWO_TO_THE_32: nat := 0x1_0000_0000
  const TWO_TO_THE_64: nat := 0x1_0000_0000_0000_0000

  const PAGE_SIZE: nat := 0x1000        // DEFAULT_PAGE_SIZE, also the size of a frame
}
