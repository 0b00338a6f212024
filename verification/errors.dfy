/** The exceptions the modelled code throws or handles, as plain values. */
module Errors {

  datatype Fault =
    | SocketError                         // System.Net.Sockets.SocketException
    | BrokerUnreachable                   // RabbitMQ BrokerUnreachableException
    | AlreadyClosed                       // RabbitMQ AlreadyClosedException
    | NoConnectionAvailable               // InvalidOperationException thrown by CreateModel
    | MissingProcessId                    // ArgumentException thrown by SaveProcess
    | ProcessNotFound(processId: string)  // ProcessNotFoundException
    | ProcessNotFinished(processId: string) // ProcessNotFinishedException
    | ProcessResended                     // ProcessResendedException
    | ObjectDisposed                      // ObjectDisposedException
    | OtherFault                          // any exception no retry policy handles
}
