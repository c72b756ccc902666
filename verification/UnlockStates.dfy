// The outcome of an unlock attempt (common/src/handler/UnlockState.h).
module UnlockStates {
  datatype UnlockState =
    | UNKNOWN | SUCCESS | CANCELED | TIMEOUT | CONNECT_ERROR | TIME_ERROR | DATA_ERROR | NOT_PAIRED_ERROR
    | APP_ERROR | START_ERROR | PORT_ERROR | PROTOCOL_ERROR | UNK_ERROR
}
