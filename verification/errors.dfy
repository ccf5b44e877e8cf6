/** The exceptions the commander can raise, one constructor per cause. */
module Errors {

  datatype Error =
    | NoSuchPath(path: string)          // FileNotFoundError from listdir or open
    | NotADirectory(path: string)       // NotADirectoryError from listdir
    | IsADirectory(path: string)        // IsADirectoryError from open
    | ScanRootMissing(path: string)     // the OSError raised by scan_machines
    | FileNameMismatch(name: string)    // AttributeError: the report name regex found nothing
    | NotAVagrantFolder(path: string)   // the AttributeError raised by verify_path
    | NoOutputBuffer(machine: string)   // AttributeError: a machine has no stdout buffer
}
