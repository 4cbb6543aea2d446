/**
 * The collaborators the plugins call but do not implement: the HTTP client and the file
 * system. Each is an object whose answers are fixed when it is made, so a method's result
 * can be stated; each records what was done to it.
 */
module Services {
  import opened Php

  datatype Response = Response(status: int, body: string)

  class HttpClient {
    /** What every URL answers with. */
    const web: string -> Response
    /** Every URL requested so far, in order. */
    var requests: seq<string>

    constructor (web: string -> Response)
      ensures this.web == web && requests == []
    {
      this.web := web;
      requests := [];
    }

    /** A GET request through the HTTP client. */
    method Get(url: string) returns (response: Response)
      modifies this
      ensures response == web(url)
      ensures requests == old(requests) + [url]
    {
      response := web(url);
      requests := requests + [url];
    }

    /**
     * file_get_contents on a URL: FALSE at once, with no request, for the empty filename;
     * otherwise the body when the final answer is a 2xx or 3xx status, FALSE from 400 up.
     */
    method GetContents(url: string) returns (contents: Value)
      modifies this
      ensures url == [] ==> contents == False && requests == old(requests)
      ensures url != [] ==> contents == (if Readable(web(url)) then Str(web(url).body) else False)
      ensures url != [] ==> requests == old(requests) + [url]
    {
      if url == [] {
        return False;
      }
      var response := web(url);
      contents := if Readable(response) then Str(response.body) else False;
      requests := requests + [url];
    }
  }

  /** An answer PHP's http stream wrapper hands back as content: a final status below 400. */
  predicate Readable(response: Response) {
    200 <= response.status < 400
  }

  class FileSystem {
    /** The files that exist, with their contents. */
    var files: map<string, string>
    /** The directories that exist. */
    var directories: set<string>
    /** The directories file_prepare_directory can create or make writable. */
    const preparable: set<string>
    /** The paths file_unmanaged_save_data fails to write. */
    const unwritable: set<string>

    constructor (files: map<string, string>, directories: set<string>, preparable: set<string>, unwritable: set<string>)
      ensures this.files == files && this.directories == directories
      ensures this.preparable == preparable && this.unwritable == unwritable
    {
      this.files := files;
      this.directories := directories;
      this.preparable := preparable;
      this.unwritable := unwritable;
    }

    /** file_exists: true for files and directories alike. */
    predicate Present(path: string)
      reads this
    {
      path in files || path in directories
    }

    method Exists(path: string) returns (b: bool)
      ensures b == Present(path)
    {
      b := path in files || path in directories;
    }

    /** file_prepare_directory, asked to create the directory and fix its permissions. */
    method PrepareDirectory(dir: string) returns (ok: bool)
      modifies this
      ensures ok == (dir in preparable)
      ensures directories == if ok then old(directories) + {dir} else old(directories)
      ensures files == old(files)
    {
      ok := dir in preparable;
      if ok {
        directories := directories + {dir};
      }
    }

    /** file_unmanaged_save_data, replacing any existing file. */
    method SaveData(data: string, path: string) returns (ok: bool)
      modifies this
      ensures ok == (path !in unwritable)
      ensures files == if ok then old(files)[path := data] else old(files)
      ensures directories == old(directories)
    {
      ok := path !in unwritable;
      if ok {
        files := files[path := data];
      }
    }
  }
}
