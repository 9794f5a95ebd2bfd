/** One audio session as it is announced, stored and parsed (Core/SDP.hpp). */
module Sessions {
  import opened Common

  datatype SessionDescription = SessionDescription(
    name: string,
    originAddress: string,
    multicastAddress: string,
    port: u16,
    payloadType: u8,
    encoding: string,
    sampleRate: u32,
    channels: u16,
    packetTimeMilliseconds: u32,
    framesPerPacket: u32,
    ptpDomain: u8,
    sourceAddress: string)
}
