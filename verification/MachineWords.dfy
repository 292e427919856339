/** Machine integers of the IA-32 target and the option type shared by the other modules. */
module MachineWords {

  type u8 = x: int | 0 <= x < 0x100
  type u16 = x: int | 0 <= x < 0x1_0000
  type u32 = x: int | 0 <= x < 0x1_0000_0000
  type i32 = x: int | -0x8000_0000 <= x < 0x8000_0000

  const WORD := 0x1_0000_0000

  datatype Option<+T> = None | Some(value: T)
}
