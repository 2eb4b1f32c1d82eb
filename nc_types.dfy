/**
 * Value types shared by the Xen node-controller handlers: the result codes
 * the handlers return, an instance's lifecycle state and resource shape,
 * its network configuration, an attached-volume record, and the outcomes of
 * the external collaborators (device-name conversion, hypervisor lookups)
 * that the handlers receive as parameters.
 */
module NcTypes {

  datatype Option<+T> = None | Some(value: T)

  /** A return code other than 0. */
  type NonZero = n: int | n != 0 witness 1

  /** The status codes a handler returns. `Ok` is the code 0 (the attach
      path compares a zero conversion result against OK), and it is the
      only spelling of 0. `Code(n)` is a raw nonzero integer the handler
      returns as it is: a literal such as the 1 and 2 of the run handler,
      or the failure code of a collaborator it passes on. */
  datatype Status = Ok | Error | ErrorFatal | NotFound | Code(n: NonZero)

  datatype Result<+T> = Success(value: T) | Failure(status: Status)

  /** The instance states the controller knows. */
  datatype InstanceState =
    | Pending | Booting | Running | Blocked | ShuttingDown | Shutoff | Crashed | Failed

  /** The requested resource shape of an instance. */
  datatype InstParams = InstParams(memorySize: int, numberOfCores: int, diskSize: int)

  /** The network configuration kept with an instance. */
  datatype NetConf = NetConf(privateMac: string, publicMac: string, vlan: int,
                             privateIp: string, publicIp: string)

  /** The address the run handler gives both IPs before provisioning fills them in. */
  const UnassignedIp: string := "0.0.0.0"

  /** An attached volume: the volume, the storage-side device and the
      converted local device name it is attached as. */
  datatype Volume = Volume(volumeId: string, remoteDev: string, localDev: string)

  /** Launch metadata handed to the instance allocator and never changed. */
  datatype LaunchSpec = LaunchSpec(
    imageId: string, imageURL: string,
    kernelId: string, kernelURL: string,
    ramdiskId: string, ramdiskURL: string,
    ownerId: string, keyName: string,
    userData: string, launchIndex: string,
    groupNames: seq<string>)

  /** What the device-name conversion reports: its return code and, when
      that code is 0, the converted local device name. */
  datatype DevName = DevName(ret: int, name: string)

  /** What a handler observes of the hypervisor for one instance: no
      connection, a connection but no domain of that name, or a domain on
      which the call was issued with the given result (0 is success). */
  datatype HypervisorView = Unconnected | DomainMissing | DomainCall(err: int)
}
