/** The process-wide `KEEP_MONKEYING` flag (declared in src/monkey.h, defined in
    src/monkey.c) and the signal handler of src/main.c that clears it. */
module Interrupt {

  /** The global flag. It starts true; the handler is the only code that writes it. */
  class Flag {
    var keepMonkeying: bool

    constructor ()
      ensures keepMonkeying
    {
      keepMonkeying := true;
    }
  }

  /** `interruptHandler`, run on SIGINT or SIGTERM: clears the flag, whatever it was.
      Nothing sets it back to true, so once false it stays false. */
  method InterruptHandler(flag: Flag)
    modifies flag
    ensures !flag.keepMonkeying
  {
    flag.keepMonkeying := false;
  }
}
