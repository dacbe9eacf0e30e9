/** What every module shares: the machine's unsigned long, optional values and error numbers. */
module Common {
  type u32 = x: int | 0 <= x < 0x1_0000_0000

  datatype Option<+T> = None | Some(value: T)

  const EAGAIN: int := 11
  const ENOMEM: int := 12
  const EFAULT: int := 14
  const ERESTARTSYS: int := 512
}
