/** Vocabulary of the broker interface, shared by the gateway's dispatcher and the order book. */
module BrokerTypes {

  datatype OrderStatus = PendingSubmit | Submitted | Filled | Cancelled | Rejected | PendingCancel | Inactive
}
