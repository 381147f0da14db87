/** The rotating file sink as the program runs it: a file system, a file handle and
    the sink that shifts files down by one when the current file would grow too long. */
module RotatingSink {
  import opened RotationSpec

  /** The part of the file system the sink uses; no operation fails. */
  class FileSystem {
    var files: Files

    constructor (files: Files)
      ensures this.files == files
    {
      this.files := files;
    }

    predicate Exists(name: string)
      reads this
    {
      name in files
    }

    method Remove(name: string)
      modifies this
      ensures files == old(files) - {name}
    {
      files := files - {name};
    }

    method Rename(src: string, target: string)
      requires Exists(src) && src != target
      modifies this
      ensures files == (old(files) - {src, target})[target := old(files)[src]]
    {
      files := (files - {src})[target := files[src]];
      assert files == (old(files) - {src, target})[target := old(files)[src]];
    }

    method Open(name: string, truncate: bool)
      modifies this
      ensures files == old(files)[name := if truncate || name !in old(files) then "" else old(files)[name]]
    {
      if truncate || name !in files {
        files := files[name := ""];
      }
    }

    method Append(name: string, data: string)
      requires Exists(name)
      modifies this
      ensures files == old(files)[name := old(files)[name] + data]
    {
      files := files[name := files[name] + data];
    }
  }

  class RotatingFileSink {
    const fs: FileSystem
    const config: Config
    var currentSize: nat
    var isOpen: bool

    ghost predicate Valid()
      reads this, fs
    {
      isOpen && RotationSpec.Valid(State(), config)
    }

    ghost function State(): Sink
      reads this, fs
    {
      Sink(fs.files, currentSize)
    }

    constructor (fs: FileSystem, config: Config)
      modifies fs
      ensures this.fs == fs && this.config == config && Valid()
      ensures State() == Opened(old(fs.files), config)
    {
      this.fs := fs;
      this.config := config;
      currentSize := 0;
      isOpen := false;
      new;
      fs.Open(CalcFilename(config.base, 0), false);
      isOpen := true;
      currentSize := |fs.files[config.base]|;
    }

    method SinkIt(msg: string)
      requires Valid()
      modifies this, fs
      ensures Valid() && State() == Write(old(State()), msg, config)
    {
      currentSize := currentSize + |msg|;
      if currentSize > config.maxSize {
        Rotate();
        currentSize := |msg|;
      }
      assert "" + msg == msg;
      fs.Append(config.base, msg);
    }

    method Rotate()
      requires isOpen
      modifies this`isOpen, fs
      ensures isOpen && fs.files == RotationSpec.Rotate(old(fs.files), config)
    {
      isOpen := false;
      var i := config.maxFiles;
      while i > 0
        invariant !isOpen
        invariant Shift(fs.files, config.base, i) == Shift(old(fs.files), config.base, config.maxFiles)
      {
        ghost var before := fs.files;
        var src := CalcFilename(config.base, i - 1);
        var target := CalcFilename(config.base, i);
        FilenamesDiffer(config.base, i - 1, i);
        if fs.Exists(target) {
          fs.Remove(target);
        }
        if fs.Exists(src) {
          fs.Rename(src, target);
        }
        assert fs.files == MoveOver(before, src, target);
        i := i - 1;
      }
      fs.Open(config.base, true);
      isOpen := true;
    }
  }
}
