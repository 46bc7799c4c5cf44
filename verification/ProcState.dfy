/** The states of a slot of the process table. */
module ProcState {
  datatype RunState = Unused | Used | Runnable | Running | Sleeping | Zombie
}
