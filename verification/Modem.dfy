/** What the modem's source files share. */
module Modem {

  /** The part of `eRetComm` the modelled code uses. */
  datatype RetComm = EError | EOk | EPpp | ESmsReady

  /** The length of the PPP input buffer and of an output block. */
  const TRANSMIT_QUEUE_BUFF_LEN: nat := 2048
}
