/** The states of a process. */
module Processes {
  datatype ProcState = Unused | Embryo | Sleeping | Runnable | Running | Zombie
}
